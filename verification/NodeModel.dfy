/** The state node as a value: one function per public transition.

    A tree is its contents; the root, the proofs and the insertions are the functions that
    the methods of the sparse Merkle tree compute. */
module NodeModel {
  import opened Options
  import opened Modular
  import opened Bytes
  import opened Smt
  import opened StateTypes
  import opened Aggregate
  import opened Transitions
  import opened Claim
  import opened Reserve

  datatype NodeError =
    | MintErr(mint: MintReject)
    | RedeemErr(redeem: RedeemReject)
    | RegistryErr(registry: RegistryReject)
    | OracleErr(oracle: OracleReject)
    | ClaimErr(claim: ClaimReject)
    | UnknownIssuer
    | ClaimUnknown
    | ReserveRefused(refusal: FinalizeError)
    | InvariantViolation
    | Panicked

  // -------------------------------------------------------------------- custody

  datatype Custody = MockCustody(mock: MockState) | MultisigCustody(multisig: MultisigState)

  function ViewOf(b: Custody): ReserveView {
    match b
    case MockCustody(m) => ReserveView(m.total, m.reserved)
    case MultisigCustody(m) => ReserveView(m.total, m.reserved)
  }

  function CreditCustody(b: Custody, sats: u64): Custody {
    match b
    case MockCustody(m) => MockCustody(m.(total := Wrap64(m.total + sats)))
    case MultisigCustody(m) => MultisigCustody(m.(total := Wrap64(m.total + sats)))
  }

  function SubmitCustody(b: Custody, id: Bytes32, operatorId: Bytes32, amount: u64): Custody {
    match b
    case MockCustody(m) => MockCustody(MockSubmit(m, id, operatorId, amount))
    case MultisigCustody(m) => MultisigCustody(MultisigSubmit(m, id, operatorId, amount))
  }

  function FinalizeCustody(c: Crypto, b: Custody, id: Bytes32): (Custody, Result<ReserveSpend, FinalizeError>) {
    match b
    case MockCustody(m) => var (m', r) := MockFinalize(m, id); (MockCustody(m'), r)
    case MultisigCustody(m) => var (m', r) := MultisigFinalize(c, m, id); (MultisigCustody(m'), r)
  }

  function ReclaimCustody(b: Custody, id: Bytes32): (Custody, Result<u64, FinalizeError>) {
    match b
    case MockCustody(m) => var (m', r) := MockReclaim(m, id); (MockCustody(m'), r)
    case MultisigCustody(m) => var (m', r) := MultisigReclaim(m, id); (MultisigCustody(m'), r)
  }

  /** The approvals handed over one by one; the first refusal stops. */
  function ApproveCustody(c: Crypto, b: Custody, id: Bytes32, approvals: seq<MultisigSig>,
                          k: nat): (Custody, Result<(), FinalizeError>)
    requires k <= |approvals|
  {
    if k == 0 || b.MockCustody? then (b, Ok(())) else
    var (b', r) := ApproveCustody(c, b, id, approvals, k - 1);
    if r.Err? || b'.MockCustody? then (b', r) else
    var (m, r') := Approved(c, b'.multisig, id, approvals[k - 1]);
    (MultisigCustody(m), r')
  }

  function VetoCustody(b: Custody, id: Bytes32): (Custody, Result<(), FinalizeError>) {
    match b
    case MockCustody(m) => (b, Ok(()))
    case MultisigCustody(m) => var (m', r) := VetoedState(m, id); (MultisigCustody(m'), r)
  }

  // ----------------------------------------------------------------- the node

  datatype NodeState = NodeState(
    state: StateRoot,
    issuerTree: Values, issuers: map<Bytes32, IssuerPosition>,
    operatorTree: Values, operators: map<Bytes32, OperatorPosition>,
    pendingTree: Values, claims: map<Bytes32, PendingClaim>,
    lockTree: Values, consumedTree: Values, refundTree: Values, nullifierTree: Values,
    reserve: Custody)

  type Outcome = Result<Bytes32, NodeError>

  /** The trees produce the roots of a state. */
  predicate RootsMatch(c: Crypto, s: NodeState, root: StateRoot) {
    && TreeRoot(c.poseidon2, s.issuerTree) == root.issuerRoot
    && TreeRoot(c.poseidon2, s.operatorTree) == root.operatorRoot
    && TreeRoot(c.poseidon2, s.pendingTree) == root.pendingRoot
    && TreeRoot(c.poseidon2, s.lockTree) == root.lockRoot
    && TreeRoot(c.poseidon2, s.consumedTree) == root.consumedRoot
    && TreeRoot(c.poseidon2, s.refundTree) == root.refundRoot
    && TreeRoot(c.poseidon2, s.nullifierTree) == root.nullifierRoot
  }

  function Commit(c: Crypto, s: NodeState, next: StateRoot): (NodeState, Outcome) {
    if RootsMatch(c, s, next) then (s.(state := next), Ok(c.stateHash(next))) else (s, Err(InvariantViolation))
  }

  predicate ReserveConsistent(s: NodeState) {
    ViewOf(s.reserve) == ReserveView(s.state.reserve, s.state.reservedPending)
  }

  function Checked(s: NodeState, r: Outcome): (NodeState, Outcome) {
    if ReserveConsistent(s) then (s, r) else (s, Err(InvariantViolation))
  }

  function Genesis(c: Crypto, family: Bytes32, oracleSetHash: Bytes32, epoch: u64, price: u64): NodeState {
    var e := TreeRoot(c.poseidon2, map[]);
    NodeState(StateRoot(1, 0, 0, 0, family, 0, 0, 0, 0, 0, oracleSetHash, epoch, epoch, price, 0, e, e, e, e, e, e, e,
                        e, e, 0, 0, 0, 0),
              map[], map[], map[], map[], map[], map[], map[], map[], map[], map[],
              MockCustody(MockState(0, 0, map[])))
  }

  function DoIssuerRegister(c: Crypto, s: NodeState, p: IssuerPosition): (NodeState, Outcome) {
    match RegisterIssuer(c, s.state, p, OwnProof(c.poseidon2, s.issuerTree, p.issuerId))
    case Err(e) => (s, Err(RegistryErr(e)))
    case Ok(next) => Commit(c, s.(issuerTree := s.issuerTree[p.issuerId := c.issuerHash(p)],
                               issuers := s.issuers[p.issuerId := p]),
                            next)
  }

  function DoOperatorRegister(c: Crypto, s: NodeState, p: OperatorPosition): (NodeState, Outcome) {
    match RegisterOperator(c, s.state, p, OwnProof(c.poseidon2, s.operatorTree, p.operatorId))
    case Err(e) => (s, Err(RegistryErr(e)))
    case Ok(next) => Commit(c, s.(operatorTree := s.operatorTree[p.operatorId := c.operatorHash(p)],
                               operators := s.operators[p.operatorId := p]),
                            next)
  }

  function WithNewIssuer(c: Crypto, s: NodeState, id: Bytes32, p: IssuerPosition): NodeState {
    s.(issuerTree := s.issuerTree[id := c.issuerHash(p)], issuers := s.issuers[id := p])
  }

  function DoMintCommit(c: Crypto, s: NodeState, id: Bytes32, w: MintCommitWitness): (NodeState, Outcome) {
    if id !in s.issuers then (s, Err(UnknownIssuer)) else
    var p := s.issuers[id];
    match CommitMint(c, s.state, p, OwnProof(c.poseidon2, s.issuerTree, id), w)
    case Err(e) => (s, Err(if e.MintPanicked? then Panicked else MintErr(e)))
    case Ok(next) =>
      match IssuerAfterCommit(c, p, w)
      case Err(e) => (s, Err(MintErr(e)))
      case Ok(after) =>
        var (s', r) := Commit(c, WithNewIssuer(c, s, id, after), next);
        if r.Err? then (s', r) else Checked(s'.(reserve := CreditCustody(s'.reserve, w.depositSats)), r)
  }

  function DoMintFinalize(c: Crypto, s: NodeState, id: Bytes32, w: MintFinalizeWitness): (NodeState, Outcome) {
    if id !in s.issuers then (s, Err(UnknownIssuer)) else
    var p := s.issuers[id];
    match FinalizeMint(c, s.state, p, OwnProof(c.poseidon2, s.issuerTree, id), w)
    case Err(e) => (s, Err(if e.MintPanicked? then Panicked else MintErr(e)))
    case Ok(next) =>
      match IssuerAfterFinalize(p, w.request.atoms)
      case Err(e) => (s, Err(MintErr(e)))
      case Ok(after) => Commit(c, WithNewIssuer(c, s, id, after), next)
  }

  function DoRedeemLock(c: Crypto, s: NodeState, w: LockWitness): (NodeState, Outcome) {
    var id := c.lockHash(w.lock);
    match ApplyLock(c, s.state, w, OwnProof(c.poseidon2, s.lockTree, id))
    case Err(e) => (s, Err(RedeemErr(e)))
    case Ok(next) => Commit(c, s.(lockTree := s.lockTree[id := SET_MEMBER]), next)
  }

  function DoLockRefund(c: Crypto, s: NodeState, w: RefundWitness): (NodeState, Outcome) {
    var id := c.lockHash(w.lock);
    match ApplyRefund(c, s.state, w, OwnProof(c.poseidon2, s.lockTree, id), OwnProof(c.poseidon2, s.consumedTree, id),
                      OwnProof(c.poseidon2, s.refundTree, id))
    case Err(e) => (s, Err(RedeemErr(e)))
    case Ok(next) => Commit(c, s.(refundTree := s.refundTree[id := SET_MEMBER]), next)
  }

  // ------------------------------------------------------------- claim building

  /** What the builder accumulates over the first redemptions; its sums wrap. */
  datatype Built = Built(filled: seq<BatchRedemption>, consumed: Values, nullifier: Values, amount: u64, gross: u64,
                         leaves: seq<Bytes32>)

  function FillOne(c: Crypto, s: NodeState, price: pos, d: Redemption, b: Built): Built {
    var id, nf := c.lockHash(d.lock), NullifierOf(c, d.lock);
    Built(b.filled + [BatchRedemption(d, OwnProof(c.poseidon2, s.lockTree, id), OwnProof(c.poseidon2, b.consumed, id),
                                      OwnProof(c.poseidon2, s.refundTree, id), OwnProof(c.poseidon2, b.nullifier, nf))],
          b.consumed[id := SET_MEMBER], b.nullifier[nf := SET_MEMBER],
          Wrap64(b.amount + d.intent.amount), Wrap64(b.gross + Wrap64(Gross(d.lock.amount, price))), b.leaves + [id])
  }

  function Fill(c: Crypto, s: NodeState, price: pos, rs: seq<Redemption>, k: nat): (b: Built)
    requires k <= |rs|
    ensures |b.filled| == k
  {
    if k == 0 then Built([], s.consumedTree, s.nullifierTree, 0, 0, [])
    else FillOne(c, s, price, rs[k - 1], Fill(c, s, price, rs, k - 1))
  }

  datatype Submission = Submission(
    redemptions: seq<Redemption>, messages: seq<OracleMessage>, signerSet: seq<Bytes32>,
    anchor: ClaimClock, shardId: u64, expiryHeight: u32, tip: u32)

  function InputsFor(c: Crypto, s: NodeState, q: Submission, b: Built): ClaimInputs
    requires |q.redemptions| > 0
  {
    var operatorId := q.redemptions[0].intent.operatorId;
    ClaimInputs(REDEEM_FAST_FINALIZE, if operatorId.Some? then operatorId.value
                else 0, c.stateHash(s.state), c.batchRoot(b.leaves),
                seq(7, _ => 0), c.liveDaRoot(q.redemptions, q.messages), s.state.archivalDaRoot, q.anchor, q.shardId,
                  b.gross, 0, q.expiryHeight)
  }

  /** The post-state that the builder proposes; `None` where it panics. */
  function Proposed(c: Crypto, s: NodeState, price: u64, inputs: ClaimInputs, id: Bytes32,
                    b: Built): Option<StateRoot> {
    WithTier(NextState(c, s.state, REDEEM_FAST_FINALIZE).(
      supply := Wrap64(s.state.supply - b.amount),
      reservedPending := Wrap64(s.state.reservedPending + b.gross),
      latestPrice := price,
      consumedRoot := TreeRoot(c.poseidon2, b.consumed),
      nullifierRoot := TreeRoot(c.poseidon2, b.nullifier),
      liveDaRoot := inputs.liveDaRoot,
      pendingRoot :=
        RootAfterUpdate(c.poseidon2, id, c.pendingHash(OpenedClaim(id, inputs)),
                        OwnProof(c.poseidon2, s.pendingTree, id))), price)
  }

  function WitnessFor(c: Crypto, s: NodeState, q: Submission, b: Built, inputs: ClaimInputs, id: Bytes32,
                      next: StateRoot): ClaimWitness {
    ClaimWitness(ReserveClaim(id, c.stateHash(next), inputs, 0), b.filled, q.messages, q.signerSet,
                 OwnProof(c.poseidon2, s.pendingTree, id), q.tip)
  }

  function AfterClaim(c: Crypto, s: NodeState, inputs: ClaimInputs, id: Bytes32, b: Built): NodeState {
    s.(consumedTree := b.consumed, nullifierTree := b.nullifier,
       pendingTree := s.pendingTree[id := c.pendingHash(OpenedClaim(id, inputs))],
       claims := s.claims[id := OpenedClaim(id, inputs)])
  }

  /** The tree mutations, the commit, and the reservation in custody. */
  function DoAccept(c: Crypto, s: NodeState, inputs: ClaimInputs, id: Bytes32, b: Built,
                    next: StateRoot): (NodeState, Outcome) {
    var (s', r) := Commit(c, AfterClaim(c, s, inputs, id, b), next);
    if r.Err? then (s', r) else
    Checked(s'.(reserve := SubmitCustody(s'.reserve, id, inputs.operatorId, inputs.reimbursement)), Ok(id))
  }

  function DoSubmitClaim(c: Crypto, s: NodeState, q: Submission): (NodeState, Outcome) {
    var price := QuorumPrice(c, s.state, Wrap64(s.state.anchorMtp + MTP_LAG_OFFSET), q.anchor, q.messages, q.signerSet);
    if price.Err? then (s, Err(OracleErr(price.error)))
    else if |q.redemptions| == 0 || price.value == 0 then (s, Err(Panicked))
    else
      var b := Fill(c, s, price.value, q.redemptions, |q.redemptions|);
      var inputs := InputsFor(c, s, q, b);
      var id := c.claimId(inputs);
      var next := Proposed(c, s, price.value, inputs, id, b);
      if next.None? then (s, Err(Panicked)) else
      var refused := VerifyClaim(c, s.state, next.value, WitnessFor(c, s, q, b, inputs, id, next.value));
      if refused.Some? then (s, Err(ClaimErr(refused.value))) else DoAccept(c, s, inputs, id, b, next.value)
  }

  function WithClaim(c: Crypto, s: NodeState, id: Bytes32, p: PendingClaim): NodeState {
    s.(pendingTree := s.pendingTree[id := c.pendingHash(p)], claims := s.claims[id := p])
  }

  function DoReclaim(c: Crypto, s: NodeState, id: Bytes32, height: u32): (NodeState, Outcome) {
    if id !in s.claims then (s, Err(ClaimUnknown)) else
    var p := s.claims[id];
    match ReclaimStale(c, s.state, p, OwnProof(c.poseidon2, s.pendingTree, id), height)
    case Err(e) => (s, Err(RegistryErr(e)))
    case Ok(next) =>
      var (s', r) := Commit(c, WithClaim(c, s, id, p.(status := Reclaimed)), next);
      if r.Err? then (s', r) else
      var (b, freed) := ReclaimCustody(s'.reserve, id);
      if freed.Err? then (s'.(reserve := b), Err(InvariantViolation)) else Checked(s'.(reserve := b), r)
  }

  function DoFinalize(c: Crypto, s: NodeState, id: Bytes32, committee: Committee, approvals: seq<MultisigSig>,
                      height: u32): (NodeState, Outcome) {
    if id !in s.claims then (s, Err(ClaimUnknown)) else
    var p := s.claims[id];
    match FinalizeClaim(c, s.state, p, OwnProof(c.poseidon2, s.pendingTree, id), committee, approvals, height)
    case Err(e) => (s, Err(if e.RegistryPanicked? then Panicked else RegistryErr(e)))
    case Ok(next) =>
      var (b, approved) := ApproveCustody(c, s.reserve, id, approvals, |approvals|);
      if approved.Err? then (s.(reserve := b), Err(ReserveRefused(approved.error))) else
      var (b', paid) := FinalizeCustody(c, b, id);
      if paid.Err? then (s.(reserve := b'), Err(ReserveRefused(paid.error))) else
      var (s', r) := Commit(c, WithClaim(c, s.(reserve := b'), id, p.(status := Finalized)), next);
      if r.Err? then (s', r) else Checked(s', r)
  }

  // ------------------------------------------------------------ configuration

  function DoSetAnchor(s: NodeState, height: u32, hash: Bytes32, mtp: u64): NodeState {
    s.(state := s.state.(anchorHeight := height, anchorHash := hash, anchorMtp := mtp,
                         anchorChainTime := Wrap64(mtp + MTP_LAG_OFFSET)))
  }

  function DoUseMultisig(c: Crypto, s: NodeState, committee: Committee): NodeState {
    s.(state := s.state.(reserveCommitteeHash := CommitteeHash(c, committee)),
       reserve := MultisigCustody(MultisigState(s.state.reserve, 0, committee, None, map[])))
  }

  function DoRotate(c: Crypto, s: NodeState, committee: Committee): NodeState {
    s.(state := s.state.(reserveCommitteeHash := CommitteeHash(c, committee)),
       reserve := match s.reserve
         case MockCustody(m) => s.reserve
         case MultisigCustody(m) => MultisigCustody(Rotated(m, committee)))
  }

  function DoPause(s: NodeState, paused: Option<PauseReason>): NodeState {
    match s.reserve
    case MockCustody(_) => s
    case MultisigCustody(m) => s.(reserve := MultisigCustody(m.(paused := paused)))
  }

  function DoVeto(s: NodeState, id: Bytes32): (NodeState, Outcome) {
    var (b, r) := VetoCustody(s.reserve, id);
    (s.(reserve := b), if r.Err? then Err(ReserveRefused(r.error)) else Ok(0))
  }

  // ------------------------------------------------------------------ whole runs

  datatype NodeOp =
    | IssuerRegister(issuer: IssuerPosition)
    | OperatorRegister(operator: OperatorPosition)
    | MintCommit(issuerId: Bytes32, commitment: MintCommitWitness)
    | MintFinalize(issuerId: Bytes32, finalization: MintFinalizeWitness)
    | RedeemLock(lock: LockWitness)
    | LockRefund(refund: RefundWitness)
    | SubmitClaim(submission: Submission)
    | ReclaimClaim(claimId: Bytes32, height: u32)
    | FinalizeOp(claimId: Bytes32, committee: Committee, approvals: seq<MultisigSig>, height: u32)
    | SetAnchor(anchorHeight: u32, anchorHash: Bytes32, mtp: u64)
    | SetCommittee(committeeHash: Bytes32)
    | UseMultisig(committee: Committee)
    | RotateCommittee(committee: Committee)
    | PauseReserve(reason: PauseReason)
    | ResumeReserve
    | VetoClaim(claimId: Bytes32)

  function NodeStep(c: Crypto, s: NodeState, op: NodeOp): (NodeState, Outcome) {
    match op
    case IssuerRegister(p) => DoIssuerRegister(c, s, p)
    case OperatorRegister(p) => DoOperatorRegister(c, s, p)
    case MintCommit(id, w) => DoMintCommit(c, s, id, w)
    case MintFinalize(id, w) => DoMintFinalize(c, s, id, w)
    case RedeemLock(w) => DoRedeemLock(c, s, w)
    case LockRefund(w) => DoLockRefund(c, s, w)
    case SubmitClaim(q) => DoSubmitClaim(c, s, q)
    case ReclaimClaim(id, height) => DoReclaim(c, s, id, height)
    case FinalizeOp(id, committee, approvals, height) => DoFinalize(c, s, id, committee, approvals, height)
    case SetAnchor(height, hash, mtp) => (DoSetAnchor(s, height, hash, mtp), Ok(0))
    case SetCommittee(hash) => (s.(state := s.state.(reserveCommitteeHash := hash)), Ok(0))
    case UseMultisig(committee) => (DoUseMultisig(c, s, committee), Ok(0))
    case RotateCommittee(committee) => (DoRotate(c, s, committee), Ok(0))
    case PauseReserve(reason) => (DoPause(s, Some(reason)), Ok(0))
    case ResumeReserve => (DoPause(s, None), Ok(0))
    case VetoClaim(id) => DoVeto(s, id)
  }

  function NodeRun(c: Crypto, s: NodeState, ops: seq<NodeOp>): NodeState {
    if |ops| == 0 then s else NodeStep(c, NodeRun(c, s, ops[..|ops| - 1]), ops[|ops| - 1]).0
  }
}
