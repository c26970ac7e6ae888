/** What every transition of the node keeps, and why its internal errors cannot happen.
    Nothing here assumes anything about the hashes. */
module NodeInvariant {
  import opened Options
  import opened Bytes
  import opened Smt
  import opened StateTypes
  import opened Aggregate
  import opened Transitions
  import opened Reserve
  import opened NodeModel

  ghost predicate IssuersMatch(c: Crypto, tree: Values, m: map<Bytes32, IssuerPosition>) {
    m.Keys == tree.Keys && forall id :: id in m ==> m[id].issuerId == id && tree[id] == c.issuerHash(m[id])
  }

  ghost predicate OperatorsMatch(c: Crypto, tree: Values, m: map<Bytes32, OperatorPosition>) {
    m.Keys == tree.Keys && forall id :: id in m ==> m[id].operatorId == id && tree[id] == c.operatorHash(m[id])
  }

  ghost predicate ClaimsMatch(c: Crypto, tree: Values, m: map<Bytes32, PendingClaim>) {
    m.Keys == tree.Keys && forall id :: id in m ==> m[id].claimId == id && tree[id] == c.pendingHash(m[id])
  }

  ghost predicate OnlySetMembers(vs: Values) {
    forall id :: id in vs ==> vs[id] == SET_MEMBER
  }

  /** A pending claim is held in custody for its amount. */
  predicate HeldFor(b: Custody, id: Bytes32, amount: u64) {
    match b
    case MockCustody(m) => id in m.pending && m.pending[id].amount == amount
    case MultisigCustody(m) => id in m.pending && m.pending[id].amount == amount && !m.pending[id].finalized
  }

  predicate StatusSeen(p: PendingClaim) {
    p.status.Pending? || p.status.Finalized? || p.status.Reclaimed?
  }

  /** The custody holds every pending claim. */
  ghost predicate BooksMatch(b: Custody, claims: map<Bytes32, PendingClaim>) {
    forall id :: id in claims ==>
      StatusSeen(claims[id]) && (claims[id].status.Pending? ==> HeldFor(b, id, claims[id].reserved))
  }

  ghost predicate SetsOnly(s: NodeState) {
    OnlySetMembers(s.lockTree) && OnlySetMembers(s.consumedTree) && OnlySetMembers(s.refundTree)
      && OnlySetMembers(s.nullifierTree)
  }

  ghost predicate NodeInv(c: Crypto, s: NodeState) {
    && RootsMatch(c, s, s.state)
    && IssuersMatch(c, s.issuerTree, s.issuers) && OperatorsMatch(c, s.operatorTree, s.operators)
    && ClaimsMatch(c, s.pendingTree, s.claims)
    && SetsOnly(s)
    && ReserveConsistent(s) && BooksMatch(s.reserve, s.claims)
  }

  lemma IssuersInsert(c: Crypto, tree: Values, m: map<Bytes32, IssuerPosition>, p: IssuerPosition)
    requires IssuersMatch(c, tree, m)
    ensures IssuersMatch(c, tree[p.issuerId := c.issuerHash(p)], m[p.issuerId := p])
  {
  }

  lemma OperatorsInsert(c: Crypto, tree: Values, m: map<Bytes32, OperatorPosition>, p: OperatorPosition)
    requires OperatorsMatch(c, tree, m)
    ensures OperatorsMatch(c, tree[p.operatorId := c.operatorHash(p)], m[p.operatorId := p])
  {
  }

  lemma ClaimsInsert(c: Crypto, tree: Values, m: map<Bytes32, PendingClaim>, p: PendingClaim)
    requires ClaimsMatch(c, tree, m)
    ensures ClaimsMatch(c, tree[p.claimId := c.pendingHash(p)], m[p.claimId := p])
  {
  }

  lemma SetInsert(vs: Values, id: Bytes32)
    requires OnlySetMembers(vs)
    ensures OnlySetMembers(vs[id := SET_MEMBER])
  {
  }

  lemma GenesisInv(c: Crypto, family: Bytes32, oracleSetHash: Bytes32, epoch: u64, price: u64)
    ensures NodeInv(c, Genesis(c, family, oracleSetHash, epoch, price))
  {
    hide TreeRoot;
  }

  // ------------------------------------------------------- the single transitions

  /** Only the custody's approvals may have moved. */
  ghost predicate Untouched(s: NodeState, s': NodeState) {
    s' == s.(reserve := s'.reserve) && ViewOf(s'.reserve) == ViewOf(s.reserve)
  }

  lemma RegisterIssuerMeans(c: Crypto, prev: StateRoot, p: IssuerPosition, proof: Proof)
    requires |proof| == HEIGHT && RegisterIssuer(c, prev, p, proof).Ok?
    ensures RegisterIssuer(c, prev, p, proof).value ==
      NextState(c, prev,
                ISSUER_REGISTER).(issuerRoot := RootAfterUpdate(c.poseidon2, p.issuerId, c.issuerHash(p), proof))
    ensures VerifyExclusion(c.poseidon2, prev.issuerRoot, p.issuerId, proof)
    ensures p.minted == p.pendingMint == p.reserveDeposits == 0 && p.pendingCommitment.None?
  {
    hide VerifyExclusion, RootAfterUpdate, DistinctKeys;
  }

  lemma IssuerRegisterKeeps(c: Crypto, s: NodeState, p: IssuerPosition)
    requires NodeInv(c, s)
    ensures var (s', r) := DoIssuerRegister(c, s, p);
      NodeInv(c, s') && r != Err(InvariantViolation) && (r.Err? ==> s' == s)
  {
    hide RegisterIssuer, TreeRoot, OwnProof, RootAfterUpdate, OnlySetMembers, IssuersMatch, OperatorsMatch,
      ClaimsMatch, BooksMatch, ViewOf, Wrap64;
    var proof := OwnProof(c.poseidon2, s.issuerTree, p.issuerId);
    Own(c.poseidon2, s.issuerTree, p.issuerId);
    if RegisterIssuer(c, s.state, p, proof).Ok? {
      RegisterIssuerMeans(c, s.state, p, proof);
      IssuersInsert(c, s.issuerTree, s.issuers, p);
    }
  }

  lemma RegisterOperatorMeans(c: Crypto, prev: StateRoot, p: OperatorPosition, proof: Proof)
    requires |proof| == HEIGHT && RegisterOperator(c, prev, p, proof).Ok?
    ensures RegisterOperator(c, prev, p, proof).value ==
      NextState(c, prev, OPERATOR_REGISTER).(
        operatorRoot := RootAfterUpdate(c.poseidon2, p.operatorId, c.operatorHash(p), proof))
  {
    hide VerifyExclusion, RootAfterUpdate;
  }

  lemma OperatorRegisterKeeps(c: Crypto, s: NodeState, p: OperatorPosition)
    requires NodeInv(c, s)
    ensures var (s', r) := DoOperatorRegister(c, s, p);
      NodeInv(c, s') && r != Err(InvariantViolation) && (r.Err? ==> s' == s)
  {
    hide RegisterOperator, TreeRoot, OwnProof, RootAfterUpdate, OnlySetMembers, IssuersMatch, OperatorsMatch,
      ClaimsMatch, BooksMatch, ViewOf, Wrap64;
    var proof := OwnProof(c.poseidon2, s.operatorTree, p.operatorId);
    Own(c.poseidon2, s.operatorTree, p.operatorId);
    if RegisterOperator(c, s.state, p, proof).Ok? {
      RegisterOperatorMeans(c, s.state, p, proof);
      OperatorsInsert(c, s.operatorTree, s.operators, p);
    }
  }

  /** What a successful commit of a mint does to the state root. */
  lemma CommitMintMeans(c: Crypto, prev: StateRoot, p: IssuerPosition, proof: Proof, w: MintCommitWitness)
    requires |proof| == HEIGHT && CommitMint(c, prev, p, proof, w).Ok?
    ensures IssuerAfterCommit(c, p, w).Ok? && p.issuerId == w.issuerId
    ensures var next := CommitMint(c, prev, p, proof, w).value;
      && prev.reserve + w.depositSats < TWO64 && w.request.atoms > 0 && p.pendingCommitment.None?
      && next == prev.(reserve := prev.reserve + w.depositSats, latestPrice := w.price, stateEpoch := next.stateEpoch,
                       prevStateRoot := c.stateHash(prev), transitionType := MINT_COMMIT,
                       collateralRatioPpm := next.collateralRatioPpm, emergencyTier := next.emergencyTier,
                       issuerRoot :=
                         RootAfterUpdate(c.poseidon2, p.issuerId, c.issuerHash(IssuerAfterCommit(c, p, w).value),
                                         proof))
  {
    hide CollateralRatio, RootAfterUpdate, VerifyInclusion, SignersOf, CommitteeHash, Wrap64;
  }

  lemma FinalizeMintMeans(c: Crypto, prev: StateRoot, p: IssuerPosition, proof: Proof, w: MintFinalizeWitness)
    requires |proof| == HEIGHT && FinalizeMint(c, prev, p, proof, w).Ok?
    ensures IssuerAfterFinalize(p, w.request.atoms).Ok? && p.issuerId == w.issuerId
    ensures var next := FinalizeMint(c, prev, p, proof, w).value;
      && prev.supply + w.request.atoms < TWO64 && p.pendingCommitment == Some(c.mintCommitment(w.request))
      && next == prev.(supply := prev.supply + w.request.atoms, latestPrice := w.price, stateEpoch := next.stateEpoch,
                       prevStateRoot := c.stateHash(prev), transitionType := MINT_FINALIZE,
                       collateralRatioPpm := next.collateralRatioPpm, emergencyTier := next.emergencyTier,
                       issuerRoot :=
                         RootAfterUpdate(c.poseidon2, p.issuerId,
                                         c.issuerHash(IssuerAfterFinalize(p, w.request.atoms).value), proof))
  {
    hide CollateralRatio, RootAfterUpdate, VerifyInclusion, Wrap64;
  }

  lemma IssuersAt(c: Crypto, tree: Values, m: map<Bytes32, IssuerPosition>, id: Bytes32)
    requires IssuersMatch(c, tree, m) && id in m
    ensures m[id].issuerId == id && id in tree && tree[id] == c.issuerHash(m[id])
  {
  }

  lemma ClaimsAt(c: Crypto, tree: Values, m: map<Bytes32, PendingClaim>, id: Bytes32)
    requires ClaimsMatch(c, tree, m) && id in m
    ensures m[id].claimId == id && id in tree && tree[id] == c.pendingHash(m[id])
  {
  }

  lemma BooksAt(b: Custody, claims: map<Bytes32, PendingClaim>, id: Bytes32)
    requires BooksMatch(b, claims) && id in claims
    ensures StatusSeen(claims[id]) && (claims[id].status.Pending? ==> HeldFor(b, id, claims[id].reserved))
  {
  }

  lemma CreditKeeps(b: Custody, claims: map<Bytes32, PendingClaim>, sats: u64)
    requires BooksMatch(b, claims)
    ensures BooksMatch(CreditCustody(b, sats), claims)
    ensures ViewOf(CreditCustody(b, sats)).reserved == ViewOf(b).reserved
    ensures ViewOf(b).total + sats < TWO64 ==> ViewOf(CreditCustody(b, sats)).total == ViewOf(b).total + sats
  {
  }

  lemma MintCommitKeeps(c: Crypto, s: NodeState, id: Bytes32, w: MintCommitWitness)
    requires NodeInv(c, s)
    ensures var (s', r) := DoMintCommit(c, s, id, w);
      NodeInv(c, s') && r != Err(InvariantViolation) && (r.Err? ==> s' == s)
  {
    hide TreeRoot, OwnProof, RootAfterUpdate, OnlySetMembers, OperatorsMatch, ClaimsMatch, BooksMatch, IssuersMatch,
      CommitMint, CreditCustody, ViewOf;
    if id in s.issuers {
      Own(c.poseidon2, s.issuerTree, id);
      var p, proof := s.issuers[id], OwnProof(c.poseidon2, s.issuerTree, id);
      if CommitMint(c, s.state, p, proof, w).Ok? {
        CommitMintMeans(c, s.state, p, proof, w);
        IssuersAt(c, s.issuerTree, s.issuers, id);
        IssuersInsert(c, s.issuerTree, s.issuers, IssuerAfterCommit(c, p, w).value);
        CreditKeeps(s.reserve, s.claims, w.depositSats);
      }
    }
  }

  lemma MintFinalizeKeeps(c: Crypto, s: NodeState, id: Bytes32, w: MintFinalizeWitness)
    requires NodeInv(c, s)
    ensures var (s', r) := DoMintFinalize(c, s, id, w);
      NodeInv(c, s') && r != Err(InvariantViolation) && (r.Err? ==> s' == s)
  {
    hide TreeRoot, OwnProof, RootAfterUpdate, OnlySetMembers, OperatorsMatch, ClaimsMatch, BooksMatch, IssuersMatch,
      FinalizeMint, ViewOf;
    if id in s.issuers {
      Own(c.poseidon2, s.issuerTree, id);
      var p, proof := s.issuers[id], OwnProof(c.poseidon2, s.issuerTree, id);
      if FinalizeMint(c, s.state, p, proof, w).Ok? {
        FinalizeMintMeans(c, s.state, p, proof, w);
        IssuersAt(c, s.issuerTree, s.issuers, id);
        IssuersInsert(c, s.issuerTree, s.issuers, IssuerAfterFinalize(p, w.request.atoms).value);
      }
    }
  }

  lemma ApplyLockMeans(c: Crypto, prev: StateRoot, w: LockWitness, proof: Proof)
    requires |proof| == HEIGHT && ApplyLock(c, prev, w, proof).Ok?
    ensures ApplyLock(c, prev, w, proof).value ==
      NextState(c, prev,
                REDEEM_FAST_LOCK).(lockRoot := RootAfterUpdate(c.poseidon2, c.lockHash(w.lock), SET_MEMBER, proof))
  {
    hide VerifyExclusion, RootAfterUpdate, CheckBinding;
  }

  lemma RedeemLockKeeps(c: Crypto, s: NodeState, w: LockWitness)
    requires NodeInv(c, s)
    ensures var (s', r) := DoRedeemLock(c, s, w);
      NodeInv(c, s') && r != Err(InvariantViolation) && (r.Err? ==> s' == s)
  {
    hide ApplyLock, TreeRoot, OwnProof, RootAfterUpdate, OnlySetMembers, IssuersMatch, OperatorsMatch, ClaimsMatch,
      BooksMatch, ViewOf, Wrap64;
    var id := c.lockHash(w.lock);
    var proof := OwnProof(c.poseidon2, s.lockTree, id);
    Own(c.poseidon2, s.lockTree, id);
    if ApplyLock(c, s.state, w, proof).Ok? {
      ApplyLockMeans(c, s.state, w, proof);
      SetInsert(s.lockTree, id);
    }
  }

  lemma ApplyRefundMeans(c: Crypto, prev: StateRoot, w: RefundWitness, member: Proof, unconsumed: Proof,
                         unrefunded: Proof)
    requires |unrefunded| == HEIGHT && ApplyRefund(c, prev, w, member, unconsumed, unrefunded).Ok?
    ensures var id := c.lockHash(w.lock);
      && ApplyRefund(c, prev, w, member, unconsumed, unrefunded).value ==
        NextState(c, prev, LOCK_REFUND).(refundRoot := RootAfterUpdate(c.poseidon2, id, SET_MEMBER, unrefunded))
      && VerifyInclusion(c.poseidon2, prev.lockRoot, id, SET_MEMBER, member)
      && VerifyExclusion(c.poseidon2, prev.consumedRoot, id, unconsumed)
      && VerifyExclusion(c.poseidon2, prev.refundRoot, id, unrefunded)
  {
    hide VerifyExclusion, VerifyInclusion, RootAfterUpdate, CheckBinding;
  }

  lemma LockRefundKeeps(c: Crypto, s: NodeState, w: RefundWitness)
    requires NodeInv(c, s)
    ensures var (s', r) := DoLockRefund(c, s, w);
      NodeInv(c, s') && r != Err(InvariantViolation) && (r.Err? ==> s' == s)
  {
    hide ApplyRefund, TreeRoot, OwnProof, RootAfterUpdate, OnlySetMembers, IssuersMatch, OperatorsMatch, ClaimsMatch,
      BooksMatch, ViewOf, Wrap64;
    var id := c.lockHash(w.lock);
    var member, unconsumed, unrefunded := OwnProof(c.poseidon2, s.lockTree, id),
      OwnProof(c.poseidon2, s.consumedTree, id), OwnProof(c.poseidon2, s.refundTree, id);
    Own(c.poseidon2, s.refundTree, id);
    if ApplyRefund(c, s.state, w, member, unconsumed, unrefunded).Ok? {
      ApplyRefundMeans(c, s.state, w, member, unconsumed, unrefunded);
      SetInsert(s.refundTree, id);
    }
  }

  // --------------------------------------------------------- reclaim and finalize

  lemma ReclaimHeld(b: Custody, id: Bytes32, amount: u64)
    requires HeldFor(b, id, amount)
    ensures var (b', r) := ReclaimCustody(b, id);
      && r == Ok(amount)
      && ViewOf(b').total == ViewOf(b).total && ViewOf(b').reserved == Wrap64(ViewOf(b).reserved - amount)
      && forall k, a: u64 {:trigger HeldFor(b', k, a)} :: k != id && HeldFor(b, k, a) ==> HeldFor(b', k, a)
  {
    hide Wrap64;
  }

  /** A claim that leaves the pending ones, with a custody that keeps the others. */
  lemma BooksSettle(b: Custody, b': Custody, claims: map<Bytes32, PendingClaim>, p: PendingClaim)
    requires BooksMatch(b, claims) && StatusSeen(p) && !p.status.Pending?
    requires forall k, a: u64 {:trigger HeldFor(b', k, a)} :: k != p.claimId && HeldFor(b, k, a) ==> HeldFor(b', k, a)
    ensures BooksMatch(b', claims[p.claimId := p])
  {
    hide HeldFor;
  }

  lemma WrapExact(v: int)
    requires 0 <= v < TWO64
    ensures Wrap64(v) == v
  {
  }

  lemma ReclaimKeeps(c: Crypto, s: NodeState, id: Bytes32, height: u32)
    requires NodeInv(c, s)
    ensures var (s', r) := DoReclaim(c, s, id, height);
      NodeInv(c, s') && r != Err(InvariantViolation) && (r.Err? ==> s' == s)
  {
    hide TreeRoot, OwnProof, VerifyInclusion, RootAfterUpdate, OnlySetMembers, IssuersMatch, OperatorsMatch,
      ClaimsMatch, BooksMatch, HeldFor, ReclaimCustody, Wrap64, ViewOf;
    if id in s.claims {
      Own(c.poseidon2, s.pendingTree, id);
      var p, proof := s.claims[id], OwnProof(c.poseidon2, s.pendingTree, id);
      if ReclaimStale(c, s.state, p, proof, height).Ok? {
        ClaimsAt(c, s.pendingTree, s.claims, id);
        BooksAt(s.reserve, s.claims, id);
        ClaimsInsert(c, s.pendingTree, s.claims, p.(status := Reclaimed));
        ReclaimHeld(s.reserve, id, p.reserved);
        BooksSettle(s.reserve, ReclaimCustody(s.reserve, id).0, s.claims, p.(status := Reclaimed));
        WrapExact(s.state.reservedPending - p.reserved);
      }
    }
  }

  lemma {:induction false} ApprovalsKeep(c: Crypto, b: Custody, id: Bytes32, approvals: seq<MultisigSig>, k: nat,
                                         held: Bytes32, amount: u64)
    requires k <= |approvals|
    ensures var b' := ApproveCustody(c, b, id, approvals, k).0;
      && ViewOf(b') == ViewOf(b)
      && (HeldFor(b, held, amount) ==> HeldFor(b', held, amount))
      && b'.MockCustody? == b.MockCustody? && (b.MockCustody? ==> b' == b)
  {
    hide Authorized, HasSigner;
    if k > 0 && b.MultisigCustody? {
      ApprovalsKeep(c, b, id, approvals, k - 1, held, amount);
    }
  }

  lemma {:induction false} ApprovalsAccepted(c: Crypto, b: Custody, id: Bytes32, approvals: seq<MultisigSig>, k: nat,
                                             amount: u64)
    requires k <= |approvals| && HeldFor(b, id, amount)
    ensures ApproveCustody(c, b, id, approvals, k).1.Ok?
  {
    hide Authorized, HasSigner;
    if k > 0 && b.MultisigCustody? {
      ApprovalsAccepted(c, b, id, approvals, k - 1, amount);
      ApprovalsKeep(c, b, id, approvals, k - 1, id, amount);
    }
  }

  lemma FinalizeHeld(c: Crypto, b: Custody, id: Bytes32, amount: u64)
    requires HeldFor(b, id, amount) && amount <= ViewOf(b).total
    ensures var (b', r) := FinalizeCustody(c, b, id);
      && (r.Err? ==> b' == b)
      && (r.Ok? ==> && r.value.claimId == id && r.value.amount == amount
                    && ViewOf(b').total == ViewOf(b).total - amount
                    && ViewOf(b').reserved == Wrap64(ViewOf(b).reserved - amount))
      && forall k, a: u64 {:trigger HeldFor(b', k, a)} :: k != id && HeldFor(b, k, a) ==> HeldFor(b', k, a)
  {
    hide Wrap64, SignersOf;
  }

  lemma FinalizeMeans(c: Crypto, prev: StateRoot, p: PendingClaim, proof: Proof, committee: Committee,
                      approvals: seq<MultisigSig>, height: u32)
    requires |proof| == HEIGHT && FinalizeClaim(c, prev, p, proof, committee, approvals, height).Ok?
    ensures var next := FinalizeClaim(c, prev, p, proof, committee, approvals, height).value;
      && p.status.Pending? && p.reserved <= prev.reserve && p.reserved <= prev.reservedPending
      && next == prev.(reserve := prev.reserve - p.reserved, reservedPending := prev.reservedPending - p.reserved,
                       stateEpoch := next.stateEpoch,
                       prevStateRoot := c.stateHash(prev), transitionType := FINALIZE_CLAIM,
                       collateralRatioPpm := next.collateralRatioPpm, emergencyTier := next.emergencyTier,
                       pendingRoot :=
                         RootAfterUpdate(c.poseidon2, p.claimId, c.pendingHash(p.(status := Finalized)), proof))
  {
    hide CollateralRatio, RootAfterUpdate, VerifyInclusion, SignersOf, CommitteeHash, Wrap64;
  }

  /** Approvals and payment in custody, for a pending claim that the total covers. */
  lemma CustodyFinalizes(c: Crypto, b: Custody, claims: map<Bytes32, PendingClaim>, id: Bytes32,
                         approvals: seq<MultisigSig>)
    requires BooksMatch(b, claims) && id in claims && claims[id].claimId == id && claims[id].status.Pending?
      && claims[id].reserved <= ViewOf(b).total
    ensures ApproveCustody(c, b, id, approvals, |approvals|).1.Ok?
    ensures var b1 := ApproveCustody(c, b, id, approvals, |approvals|).0;
      var (b2, r) := FinalizeCustody(c, b1, id);
      && ViewOf(b1) == ViewOf(b) && BooksMatch(b1, claims)
      && BooksMatch(b2, claims[id := claims[id].(status := Finalized)])
      && (r.Err? ==> b2 == b1 && !b.MockCustody?)
      && (r.Ok? ==>
          ViewOf(b2) ==
            ReserveView(ViewOf(b).total - claims[id].reserved, Wrap64(ViewOf(b).reserved - claims[id].reserved)))
  {
    hide BooksMatch, HeldFor, ApproveCustody, FinalizeCustody, Wrap64, ViewOf;
    var amount := claims[id].reserved;
    BooksAt(b, claims, id);
    var b1 := ApproveCustody(c, b, id, approvals, |approvals|).0;
    BooksApprove(c, b, claims, id, approvals);
    ApprovalsKeep(c, b, id, approvals, |approvals|, id, amount);
    ApprovalsAccepted(c, b, id, approvals, |approvals|, amount);
    FinalizeHeld(c, b1, id, amount);
    MockPays(c, b1, id, amount);
    BooksSettle(b1, FinalizeCustody(c, b1, id).0, claims, claims[id].(status := Finalized));
  }

  /** The node after a payment: the trees give the new roots and the invariant holds. */
  lemma PaidKeeps(c: Crypto, s: NodeState, id: Bytes32, next: StateRoot, b: Custody)
    requires NodeInv(c, s) && id in s.claims && s.claims[id].claimId == id
    requires next ==
      s.state.(reserve := next.reserve, reservedPending := next.reservedPending, stateEpoch := next.stateEpoch,
               prevStateRoot := next.prevStateRoot, transitionType := next.transitionType,
               collateralRatioPpm := next.collateralRatioPpm, emergencyTier := next.emergencyTier,
               pendingRoot := next.pendingRoot)
    requires next.pendingRoot ==
      RootAfterUpdate(c.poseidon2, id, c.pendingHash(s.claims[id].(status := Finalized)),
                      OwnProof(c.poseidon2, s.pendingTree, id))
    requires ViewOf(b) == ReserveView(next.reserve, next.reservedPending)
      && BooksMatch(b, s.claims[id := s.claims[id].(status := Finalized)])
    ensures var s' := WithClaim(c, s.(reserve := b), id, s.claims[id].(status := Finalized));
      RootsMatch(c, s', next) && NodeInv(c, s'.(state := next)) && ReserveConsistent(s'.(state := next))
  {
    Own(c.poseidon2, s.pendingTree, id);
    hide TreeRoot, OwnProof, RootAfterUpdate, OnlySetMembers, IssuersMatch, OperatorsMatch, ClaimsMatch, BooksMatch,
      ViewOf;
    ClaimsInsert(c, s.pendingTree, s.claims, s.claims[id].(status := Finalized));
  }

  lemma CustodyFrame(c: Crypto, s: NodeState, b: Custody)
    requires NodeInv(c, s) && ViewOf(b) == ViewOf(s.reserve) && BooksMatch(b, s.claims)
    ensures NodeInv(c, s.(reserve := b))
  {
    hide TreeRoot, OnlySetMembers, IssuersMatch, OperatorsMatch, ClaimsMatch, BooksMatch, ViewOf;
  }

  lemma InvParts(c: Crypto, s: NodeState)
    requires NodeInv(c, s)
    ensures ClaimsMatch(c, s.pendingTree, s.claims) && BooksMatch(s.reserve, s.claims)
    ensures ViewOf(s.reserve) == ReserveView(s.state.reserve, s.state.reservedPending)
  {
    hide RootsMatch, OnlySetMembers, IssuersMatch, OperatorsMatch, ClaimsMatch, BooksMatch, ViewOf;
  }

  /** A payment that the state machine refuses. */
  lemma FinalizeRefusedEarly(c: Crypto, s: NodeState, id: Bytes32, committee: Committee, approvals: seq<MultisigSig>,
                             height: u32)
    requires id in s.claims ==>
      FinalizeClaim(c, s.state, s.claims[id], OwnProof(c.poseidon2, s.pendingTree, id), committee, approvals,
                    height).Err?
    ensures var (s', r) := DoFinalize(c, s, id, committee, approvals, height);
      s' == s && r.Err? && !r.error.ReserveRefused? && r != Err(InvariantViolation)
  {
    hide OwnProof, FinalizeClaim, ApproveCustody, FinalizeCustody, RootsMatch, ReserveConsistent;
  }

  /** A payment that it allows, once the approvals went in. */
  lemma FinalizeAllowed(c: Crypto, s: NodeState, id: Bytes32, committee: Committee, approvals: seq<MultisigSig>,
                        height: u32)
    requires id in s.claims
    requires FinalizeClaim(c, s.state, s.claims[id], OwnProof(c.poseidon2, s.pendingTree, id), committee, approvals,
                           height).Ok?
    requires ApproveCustody(c, s.reserve, id, approvals, |approvals|).1.Ok?
    ensures var next :=
      FinalizeClaim(c, s.state, s.claims[id], OwnProof(c.poseidon2, s.pendingTree, id), committee, approvals,
                    height).value;
      var (b, paid) := FinalizeCustody(c, ApproveCustody(c, s.reserve, id, approvals, |approvals|).0, id);
      var t := WithClaim(c, s.(reserve := b), id, s.claims[id].(status := Finalized));
      DoFinalize(c, s, id, committee, approvals, height) ==
        if paid.Err? then (s.(reserve := b), Err(ReserveRefused(paid.error)))
        else if !RootsMatch(c, t, next) then (t, Err(InvariantViolation))
        else if !ReserveConsistent(t.(state := next)) then (t.(state := next), Err(InvariantViolation))
        else (t.(state := next), Ok(c.stateHash(next)))
  {
    hide OwnProof, FinalizeClaim, ApproveCustody, FinalizeCustody, RootsMatch, ReserveConsistent, WithClaim;
  }

  /** What a payment that the state machine allows comes to. */
  lemma FinalizeOutcome(c: Crypto, s: NodeState, id: Bytes32, committee: Committee, approvals: seq<MultisigSig>,
                        height: u32)
    requires NodeInv(c, s) && id in s.claims
    requires FinalizeClaim(c, s.state, s.claims[id], OwnProof(c.poseidon2, s.pendingTree, id), committee, approvals,
                           height).Ok?
    ensures var (s', r) := DoFinalize(c, s, id, committee, approvals, height);
      var b := ApproveCustody(c, s.reserve, id, approvals, |approvals|).0;
      && NodeInv(c, s')
      && (r.Ok? || (r.error.ReserveRefused? && s' == s.(reserve := b) && ViewOf(b) == ViewOf(s.reserve)
                    && !s.reserve.MockCustody?))
  {
    hide *;
    var p, proof := s.claims[id], OwnProof(c.poseidon2, s.pendingTree, id);
    InvParts(c, s);
    var next := FinalizeClaim(c, s.state, p, proof, committee, approvals, height).value;
    FinalizeMeans(c, s.state, p, proof, committee, approvals, height);
    ClaimsAt(c, s.pendingTree, s.claims, id);
    CustodyFinalizes(c, s.reserve, s.claims, id, approvals);
    WrapExact(s.state.reservedPending - p.reserved);
    FinalizeAllowed(c, s, id, committee, approvals, height);
    var b := ApproveCustody(c, s.reserve, id, approvals, |approvals|).0;
    var (b', paid) := FinalizeCustody(c, b, id);
    CustodyFrame(c, s, b);
    if paid.Ok? { PaidKeeps(c, s, id, next, b'); }
  }

  lemma FinalizeKeeps(c: Crypto, s: NodeState, id: Bytes32, committee: Committee, approvals: seq<MultisigSig>,
                      height: u32)
    requires NodeInv(c, s)
    ensures var (s', r) := DoFinalize(c, s, id, committee, approvals, height);
      && NodeInv(c, s') && r != Err(InvariantViolation)
      && (r.Err? ==> Untouched(s, s'))
      && (r.Err? && (!r.error.ReserveRefused? || s.reserve.MockCustody?) ==> s' == s)
  {
    hide NodeInv, DoFinalize, FinalizeClaim, OwnProof, ApproveCustody, ViewOf;
    if id in s.claims
      && FinalizeClaim(c, s.state, s.claims[id], OwnProof(c.poseidon2, s.pendingTree, id), committee, approvals,
                       height).Ok? {
      FinalizeOutcome(c, s, id, committee, approvals, height);
    } else {
      FinalizeRefusedEarly(c, s, id, committee, approvals, height);
    }
  }

  /** An approval that the custody would not store for a claim. */
  predicate Ignored(c: Crypto, m: MultisigState, id: Bytes32, a: MultisigSig)
    requires id in m.pending
  {
    !Authorized(c, m.committee, id, a) || HasSigner(m.pending[id].approvals, a.signer)
  }

  lemma ApprovedIff(c: Crypto, m: MultisigState, id: Bytes32, a: MultisigSig)
    requires id in m.pending
    ensures Approved(c, m, id, a).1.Ok?
    ensures var m' := Approved(c, m, id, a).0;
      && id in m'.pending && |m'.pending[id].approvals| ==
        |m.pending[id].approvals| + (if Ignored(c, m, id, a) then 0 else 1)
      && (Ignored(c, m, id, a) ==> m' == m)
  {
    hide Authorized, HasSigner;
  }

  /** Handing approvals over changes nothing exactly when the custody ignores each of them. */
  lemma {:induction false} ApprovalsIgnoredIff(c: Crypto, m: MultisigState, id: Bytes32, approvals: seq<MultisigSig>,
                                               k: nat)
    requires k <= |approvals| && id in m.pending
    ensures var b := ApproveCustody(c, MultisigCustody(m), id, approvals, k);
      && b.1.Ok? && b.0.MultisigCustody? && id in b.0.multisig.pending
      && |b.0.multisig.pending[id].approvals| >= |m.pending[id].approvals|
      && (b.0.multisig == m <==> forall i :: 0 <= i < k ==> Ignored(c, m, id, approvals[i]))
      && (b.0.multisig != m ==> |b.0.multisig.pending[id].approvals| > |m.pending[id].approvals|)
  {
    hide Approved, Ignored;
    if k > 0 {
      ApprovalsIgnoredIff(c, m, id, approvals, k - 1);
      ApprovedIff(c, ApproveCustody(c, MultisigCustody(m), id, approvals, k - 1).0.multisig, id, approvals[k - 1]);
    }
  }

  lemma RefusedByCustody(c: Crypto, s: NodeState, id: Bytes32, committee: Committee, approvals: seq<MultisigSig>,
                         height: u32)
    requires NodeInv(c, s) && s.reserve.MultisigCustody?
    requires var r := DoFinalize(c, s, id, committee, approvals, height).1; r.Err? && r.error.ReserveRefused?
    ensures id in s.claims && id in s.reserve.multisig.pending
    ensures DoFinalize(c, s, id, committee, approvals, height).0 ==
      s.(reserve := ApproveCustody(c, s.reserve, id, approvals, |approvals|).0)
  {
    InvParts(c, s);
    hide NodeInv, DoFinalize, OwnProof, ClaimsMatch, BooksMatch, FinalizeClaim, ApproveCustody, ViewOf;
    if id in s.claims
      && FinalizeClaim(c, s.state, s.claims[id], OwnProof(c.poseidon2, s.pendingTree, id), committee, approvals,
                       height).Ok? {
      FinalizeOutcome(c, s, id, committee, approvals, height);
      FinalizeMeans(c, s.state, s.claims[id], OwnProof(c.poseidon2, s.pendingTree, id), committee, approvals, height);
      BooksAt(s.reserve, s.claims, id);
    } else {
      FinalizeRefusedEarly(c, s, id, committee, approvals, height);
    }
  }

  /** A payment that the custody refuses leaves the node alone exactly when the custody
      ignores every approval handed over: not authorized for its committee, or from a member
      whose approval it has already. */
  lemma RefusalKeepsIff(c: Crypto, s: NodeState, id: Bytes32, committee: Committee, approvals: seq<MultisigSig>,
                        height: u32)
    requires NodeInv(c, s) && s.reserve.MultisigCustody?
    requires var r := DoFinalize(c, s, id, committee, approvals, height).1; r.Err? && r.error.ReserveRefused?
    ensures id in s.reserve.multisig.pending
    ensures DoFinalize(c, s, id, committee, approvals, height).0 == s <==>
      forall i :: 0 <= i < |approvals| ==> Ignored(c, s.reserve.multisig, id, approvals[i])
  {
    RefusedByCustody(c, s, id, committee, approvals, height);
    hide NodeInv, DoFinalize, ApproveCustody, Ignored;
    ApprovalsIgnoredIff(c, s.reserve.multisig, id, approvals, |approvals|);
  }

  lemma PausedRefuses(c: Crypto, m: MultisigState, id: Bytes32)
    requires m.paused.Some?
    ensures MultisigFinalize(c, m, id) == (m, Err(Paused))
  {
  }

  lemma OneApproval(c: Crypto, m: MultisigState, id: Bytes32, a: MultisigSig)
    requires id in m.pending && !Ignored(c, m, id, a)
    ensures ApproveCustody(c, MultisigCustody(m), id, [a], 1).1.Ok?
    ensures var b := ApproveCustody(c, MultisigCustody(m), id, [a], 1).0;
      b == MultisigCustody(m.(pending := m.pending[id := m.pending[id].(approvals := m.pending[id].approvals + [a])]))
  {
    assert ApproveCustody(c, MultisigCustody(m), id, [a], 0) == (MultisigCustody(m), Ok(()));
    hide Authorized, HasSigner;
  }

  /** An input where something stays: a paused custody, a claim that the state machine would
      pay, and one approval that is new to the custody. */
  lemma RefusedApprovalStays(c: Crypto, s: NodeState, id: Bytes32, committee: Committee, a: MultisigSig, height: u32)
    requires NodeInv(c, s) && s.reserve.MultisigCustody? && s.reserve.multisig.paused.Some?
    requires id in s.claims
      && FinalizeClaim(c, s.state, s.claims[id], OwnProof(c.poseidon2, s.pendingTree, id), committee, [a], height).Ok?
    requires id in s.reserve.multisig.pending && !Ignored(c, s.reserve.multisig, id, a)
    ensures DoFinalize(c, s, id, committee, [a], height).1 == Err(ReserveRefused(Paused))
    ensures var m := DoFinalize(c, s, id, committee, [a], height).0.reserve;
      m.MultisigCustody? && id in m.multisig.pending
        && m.multisig.pending[id].approvals == s.reserve.multisig.pending[id].approvals + [a]
  {
    OneApproval(c, s.reserve.multisig, id, a);
    PausedRefuses(c, ApproveCustody(c, s.reserve, id, [a], 1).0.multisig, id);
    hide NodeInv, RootsMatch, OwnProof, FinalizeClaim, ApproveCustody, MultisigFinalize, WithClaim, ReserveConsistent,
      Ignored;
  }

  lemma BooksApprove(c: Crypto, b: Custody, claims: map<Bytes32, PendingClaim>, id: Bytes32,
                     approvals: seq<MultisigSig>)
    requires BooksMatch(b, claims)
    ensures BooksMatch(ApproveCustody(c, b, id, approvals, |approvals|).0, claims)
  {
    hide ApproveCustody, HeldFor;
    forall k | k in claims && claims[k].status.Pending?
      ensures HeldFor(ApproveCustody(c, b, id, approvals, |approvals|).0, k, claims[k].reserved)
    {
      ApprovalsKeep(c, b, id, approvals, |approvals|, k, claims[k].reserved);
    }
  }

  /** The mock custody never refuses a claim that it holds and can cover. */
  lemma MockPays(c: Crypto, b: Custody, id: Bytes32, amount: u64)
    requires HeldFor(b, id, amount) && amount <= ViewOf(b).total
    ensures b.MockCustody? ==> FinalizeCustody(c, b, id).1.Ok?
  {
  }
}
