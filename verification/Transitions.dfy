/** The executors of the single-step transitions: each checks a witness against the state
    root and builds the next state root. */
module Transitions {
  import opened Options
  import opened Bytes
  import opened Smt
  import opened StateTypes

  const MIN_MINT_CR_PPM: nat := 2_000_000
  const TIER_HEALTHY_PPM: nat := 1_500_000
  const DEPOSIT_MIN_CONFIRMATIONS: nat := 6
  const OPERATOR_BOND_MULTIPLE: nat := 2
  const MIN_REDEMPTION_ATOMS: nat := 100
  const MAX_REDEMPTION_ATOMS: nat := 1_000_000_000
  const REFUND_SAFETY_DELTA: nat := 24
  const MODE_FAST_OPERATOR: nat := 0

  // ------------------------------------------------------------------- registry

  function RegisterIssuer(c: Crypto, prev: StateRoot, p: IssuerPosition,
                          proof: Proof): Result<StateRoot, RegistryReject>
    requires |proof| == HEIGHT
  {
    if !(p.status.IssuerActive? && p.minted == 0 && p.pendingMint == 0 && p.reserveDeposits == 0
         && p.collateralRatioPpm == 0
         && p.pendingCommitment.None? && p.lastDeposit.None? && p.freezeReason.None?) then Err(IssuerNotFresh)
    else if !(1 <= p.multisigThreshold <= |p.multisigKeys| && DistinctKeys(p.multisigKeys)) then Err(BadMultisigConfig)
    else if !VerifyExclusion(c.poseidon2, prev.issuerRoot, p.issuerId, proof) then Err(IssuerAlreadyRegistered)
    else Ok(NextState(c, prev,
                      ISSUER_REGISTER).(issuerRoot := RootAfterUpdate(c.poseidon2, p.issuerId, c.issuerHash(p), proof)))
  }

  function RegisterOperator(c: Crypto, prev: StateRoot, p: OperatorPosition,
                            proof: Proof): Result<StateRoot, RegistryReject>
    requires |proof| == HEIGHT
  {
    if !(p.status.OperatorActive? && p.outstanding == 0 && p.slashed == 0) then Err(OperatorNotFresh)
    else if p.maxClaim == 0 then Err(ZeroMaxClaim)
    else if p.maxClaim * OPERATOR_BOND_MULTIPLE >= TWO64 then Err(RegistryOverflow)
    else if p.bond < p.maxClaim * OPERATOR_BOND_MULTIPLE then Err(BondInsufficient)
    else if !VerifyExclusion(c.poseidon2, prev.operatorRoot, p.operatorId, proof) then Err(OperatorAlreadyRegistered)
    else Ok(NextState(c, prev, OPERATOR_REGISTER).(
              operatorRoot := RootAfterUpdate(c.poseidon2, p.operatorId, c.operatorHash(p), proof)))
  }

  function ReclaimStale(c: Crypto, prev: StateRoot, claim: PendingClaim, proof: Proof,
                        height: u32): Result<StateRoot, RegistryReject>
    requires |proof| == HEIGHT
  {
    if !claim.status.Pending? && !claim.status.Challenged? then Err(ClaimNotReclaimable)
    else if height <= claim.expiryHeight then Err(ClaimNotExpired)
    else if !VerifyInclusion(c.poseidon2, prev.pendingRoot, claim.claimId, c.pendingHash(claim), proof) then
      Err(ClaimNotPresent)
    else if prev.reservedPending < claim.reserved then Err(RegistryOverflow)
    else Ok(NextState(c, prev, RECLAIM_STALE_CLAIM).(
      reservedPending := prev.reservedPending - claim.reserved,
      pendingRoot := RootAfterUpdate(c.poseidon2, claim.claimId, c.pendingHash(claim.(status := Reclaimed)), proof)))
  }

  datatype Committee = Committee(threshold: nat, keys: seq<Key33>)

  function CommitteeHash(c: Crypto, m: Committee): Bytes32 {
    c.committeeHash(m.threshold, multiset(m.keys))
  }

  function FinalizeClaim(c: Crypto, prev: StateRoot, claim: PendingClaim, proof: Proof, committee: Committee,
                         approvals: seq<MultisigSig>, height: u32): Result<StateRoot, RegistryReject>
    requires |proof| == HEIGHT
  {
    if !claim.status.Pending? then Err(ClaimNotPending)
    else if height > claim.expiryHeight then Err(ClaimExpired)
    else if CommitteeHash(c, committee) != prev.reserveCommitteeHash then Err(CommitteeMismatch)
    else if |SignersOf(c, claim.claimId, committee.keys, approvals)| < committee.threshold then
      Err(ApprovalInsufficient)
    else if !VerifyInclusion(c.poseidon2, prev.pendingRoot, claim.claimId, c.pendingHash(claim), proof) then
      Err(ClaimNotPresent)
    else if prev.reservedPending < claim.reserved then Err(RegistryOverflow)
    else if prev.reserve < claim.reserved then Err(ReserveInsufficient)
    else
      var paid := NextState(c, prev, FINALIZE_CLAIM).(
        reservedPending := prev.reservedPending - claim.reserved,
        reserve := prev.reserve - claim.reserved,
        pendingRoot := RootAfterUpdate(c.poseidon2, claim.claimId, c.pendingHash(claim.(status := Finalized)), proof));
      match WithTier(paid, prev.latestPrice)
      case None => Err(RegistryPanicked)
      case Some(next) => Ok(next)
  }

  // ----------------------------------------------------------------------- mint

  datatype MintCommitWitness = MintCommitWitness(
    issuerId: Bytes32, request: MintRequest, depositSats: u64, signatures: seq<MultisigSig>, price: u64,
    deposit: DepositConfirmation, committee: Committee)

  datatype MintFinalizeWitness = MintFinalizeWitness(
    issuerId: Bytes32, request: MintRequest, anchorConfirmations: u32, mintProofOk: bool, price: u64)

  function IssuerAfterCommit(c: Crypto, p: IssuerPosition, w: MintCommitWitness): Result<IssuerPosition, MintReject> {
    if p.reserveDeposits + w.depositSats >= TWO64 || p.pendingMint + w.request.atoms >= TWO64 then Err(MintOverflow)
    else Ok(p.(reserveDeposits := p.reserveDeposits + w.depositSats, pendingMint := p.pendingMint + w.request.atoms,
               lastDeposit := Some(w.request.depositTxid), pendingCommitment := Some(c.mintCommitment(w.request))))
  }

  function IssuerAfterFinalize(p: IssuerPosition, atoms: u64): Result<IssuerPosition, MintReject> {
    if p.minted + atoms >= TWO64 || p.pendingMint < atoms then Err(MintOverflow)
    else Ok(p.(minted := p.minted + atoms, pendingMint := p.pendingMint - atoms, pendingCommitment := None))
  }

  function WithIssuer(c: Crypto, s: StateRoot, price: u64, p: IssuerPosition,
                      proof: Proof): Result<StateRoot, MintReject>
    requires |proof| == HEIGHT
  {
    match WithTier(s.(latestPrice := price), price)
    case None => Err(MintPanicked)
    case Some(next) => Ok(next.(issuerRoot := RootAfterUpdate(c.poseidon2, p.issuerId, c.issuerHash(p), proof)))
  }

  function CommitMint(c: Crypto, prev: StateRoot, p: IssuerPosition, proof: Proof,
                      w: MintCommitWitness): Result<StateRoot, MintReject>
    requires |proof| == HEIGHT
  {
    if p.issuerId != w.issuerId then Err(IssuerMismatch)
    else if !VerifyInclusion(c.poseidon2, prev.issuerRoot, p.issuerId, c.issuerHash(p), proof) then
      Err(IssuerNotInState)
    else if !p.status.IssuerActive? then Err(IssuerNotActive)
    else if CommitteeHash(c, w.committee) != prev.reserveCommitteeHash then Err(ReserveCommitteeMismatch)
    else
      var spv := c.depositSpv(w.deposit, w.request.depositTxid, w.depositSats, w.committee.keys, w.committee.threshold,
                              DEPOSIT_MIN_CONFIRMATIONS);
      if spv.Some? then Err(Deposit(spv.value))
      else if |SignersOf(c, c.mintSighash(w.issuerId, w.request, w.depositSats), p.multisigKeys,
                         w.signatures)| < p.multisigThreshold then Err(MultisigThresholdNotMet)
      else if p.pendingCommitment.Some? then Err(PendingMintExists)
      else if w.request.atoms == 0 then Err(ZeroMintAmount)
      else if prev.reserve + w.depositSats >= TWO64 || prev.supply + w.request.atoms >= TWO64 then Err(MintOverflow)
      else
        match CollateralRatio(prev.reserve + w.depositSats, prev.supply + w.request.atoms, w.price)
        case NoSupply => Err(MintPanicked)
        case Overflows => Err(MintPanicked)
        case Ratio(cr) =>
          if cr < MIN_MINT_CR_PPM then Err(InsufficientCollateralAtCommit(cr)) else
          var after :- IssuerAfterCommit(c, p, w);
          WithIssuer(c, NextState(c, prev, MINT_COMMIT).(reserve := prev.reserve + w.depositSats), w.price, after,
                     proof)
  }

  function FinalizeMint(c: Crypto, prev: StateRoot, p: IssuerPosition, proof: Proof,
                        w: MintFinalizeWitness): Result<StateRoot, MintReject>
    requires |proof| == HEIGHT
  {
    if p.issuerId != w.issuerId then Err(IssuerMismatch)
    else if !VerifyInclusion(c.poseidon2, prev.issuerRoot, p.issuerId, c.issuerHash(p), proof) then
      Err(IssuerNotInState)
    else if !p.status.IssuerActive? then Err(IssuerNotActive)
    else if p.pendingCommitment.None? then Err(NoPendingMint)
    else if p.pendingCommitment.value != c.mintCommitment(w.request) then Err(CommitMismatch)
    else if w.anchorConfirmations < DEPOSIT_MIN_CONFIRMATIONS then Err(MintAnchorNotConfirmed)
    else if !w.mintProofOk then Err(MintProofInvalid)
    else if prev.supply + w.request.atoms >= TWO64 then Err(MintOverflow)
    else
      match CollateralRatio(prev.reserve, prev.supply + w.request.atoms, w.price)
      case NoSupply => Err(MintPanicked)
      case Overflows => Err(MintPanicked)
      case Ratio(cr) =>
        if cr < MIN_MINT_CR_PPM then Err(InsufficientCollateralAtFinalize(cr))
        else if cr < TIER_HEALTHY_PPM then Err(TierNotHealthy(cr))
        else
          var after :- IssuerAfterFinalize(p, w.request.atoms);
          WithIssuer(c, NextState(c, prev, MINT_FINALIZE).(supply := prev.supply + w.request.atoms), w.price, after,
                     proof)
  }

  // --------------------------------------------------------------------- redeem

  /** The intent and the lock record belong together. */
  function CheckBinding(c: Crypto, intent: RedeemIntent, lock: LockRecord, family: Bytes32): Option<RedeemReject> {
    var rih := c.intentHash(intent);
    if lock.intentHash != rih then Some(IntentHashMismatch)
    else if lock.scriptKey != c.lockKey(intent.assetRefundKey, rih, intent.paymentHash) then Some(LockScriptKeyMismatch)
    else if lock.assetFamilyId != family then Some(AssetFamilyMismatch)
    else if lock.amount != intent.amount then Some(AmountMismatch)
    else if !(MIN_REDEMPTION_ATOMS <= intent.amount <= MAX_REDEMPTION_ATOMS) then Some(AmountOutOfRange)
    else if intent.mode != MODE_FAST_OPERATOR then Some(WrongMode)
    else if intent.operatorId.None? then Some(OperatorIdMissing)
    else if intent.btcHtlcCsv + REFUND_SAFETY_DELTA >= TWO32 then Some(RedeemOverflow)
    else if intent.assetLockCsv < intent.btcHtlcCsv + REFUND_SAFETY_DELTA then Some(CsvTooShort)
    else if lock.paymentHash != intent.paymentHash then Some(PaymentHashMismatch)
    else None
  }

  /** The lock belongs to the intent, of this asset, for an amount in range, with an operator,
      and the user's refund opens at least 24 blocks after the operator's HTLC. */
  predicate Bound(c: Crypto, intent: RedeemIntent, lock: LockRecord, family: Bytes32) {
    && lock.intentHash == c.intentHash(intent)
    && lock.scriptKey == c.lockKey(intent.assetRefundKey, c.intentHash(intent), intent.paymentHash)
    && lock.paymentHash == intent.paymentHash && lock.assetFamilyId == family
    && lock.amount == intent.amount && 100 <= intent.amount <= 1_000_000_000
    && intent.mode == 0 && intent.operatorId.Some?
    && intent.btcHtlcCsv + 24 < 0x1_0000_0000 && intent.btcHtlcCsv + 24 <= intent.assetLockCsv
  }

  lemma BindingIff(c: Crypto, intent: RedeemIntent, lock: LockRecord, family: Bytes32)
    ensures CheckBinding(c, intent, lock, family) == None <==> Bound(c, intent, lock, family)
  {
  }

  datatype LockWitness = LockWitness(intent: RedeemIntent, lock: LockRecord, lineageProof: bytes)
  datatype RefundWitness = RefundWitness(intent: RedeemIntent, lock: LockRecord, refund: LockRefundRecord)

  function ApplyLock(c: Crypto, prev: StateRoot, w: LockWitness, proof: Proof): Result<StateRoot, RedeemReject>
    requires |proof| == HEIGHT
  {
    var binding := CheckBinding(c, w.intent, w.lock, prev.assetFamilyId);
    if binding.Some? then Err(binding.value) else
    var lineage := c.lineage(w.lineageProof, w.lock, w.intent.network);
    if lineage.Some? then Err(Lineage(lineage.value)) else
    var id := c.lockHash(w.lock);
    if !VerifyExclusion(c.poseidon2, prev.lockRoot, id, proof) then Err(LockAlreadyExists) else
    Ok(NextState(c, prev, REDEEM_FAST_LOCK).(lockRoot := RootAfterUpdate(c.poseidon2, id, SET_MEMBER, proof)))
  }

  function ApplyRefund(c: Crypto, prev: StateRoot, w: RefundWitness, member: Proof, unconsumed: Proof,
                       unrefunded: Proof): Result<StateRoot, RedeemReject>
    requires |unrefunded| == HEIGHT
  {
    var binding := CheckBinding(c, w.intent, w.lock, prev.assetFamilyId);
    if binding.Some? then Err(binding.value) else
    var id := c.lockHash(w.lock);
    if w.refund.lockHash != id then Err(IntentHashMismatch)
    else if !VerifyInclusion(c.poseidon2, prev.lockRoot, id, SET_MEMBER, member) then Err(LockNotActive)
    else if !VerifyExclusion(c.poseidon2, prev.consumedRoot, id, unconsumed) then Err(LockConsumed)
    else if !VerifyExclusion(c.poseidon2, prev.refundRoot, id, unrefunded) then Err(LockRefunded)
    else Ok(NextState(c, prev, LOCK_REFUND).(refundRoot := RootAfterUpdate(c.poseidon2, id, SET_MEMBER, unrefunded)))
  }
}
