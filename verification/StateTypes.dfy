/** The records of the accounting state machine, its hashes and outside checks, and the
    pieces that every transition shares.

    Where the source would panic (a checked product that does not fit, a division by a
    zero price, the first element of an empty batch) the model returns `Panicked`.
    Unchecked machine arithmetic wraps, as in the release build. */
module StateTypes {
  import opened Options
  import opened Modular
  import opened Bytes
  import opened Smt

  const TWO128: pos := 0x1_00000000_00000000_00000000_00000000

  /** A compressed public key and a compact signature, as numbers. */
  type Key33 = k: nat | k < 0x100 * TWO256
  type Sig64 = nat

  function Wrap64(v: int): u64 {
    v % TWO64
  }

  // -------------------------------------------------------------------- records

  datatype OutPoint = OutPoint(txid: Bytes32, vout: u32)

  const MINT_COMMIT: nat := 0x01
  const MINT_FINALIZE: nat := 0x02
  const REDEEM_FAST_LOCK: nat := 0x10
  const REDEEM_FAST_FINALIZE: nat := 0x11
  const LOCK_REFUND: nat := 0x12
  const OPERATOR_REGISTER: nat := 0x20
  const ISSUER_REGISTER: nat := 0x21
  const RECLAIM_STALE_CLAIM: nat := 0x30
  const FINALIZE_CLAIM: nat := 0x31

  datatype StateRoot = StateRoot(
    protocolVersion: nat, stateEpoch: u64, prevStateRoot: Bytes32, transitionType: nat,
    assetFamilyId: Bytes32, supply: u64, reserve: u64, reservedPending: u64,
    collateralRatioPpm: u64, emergencyTier: nat,
    oracleSetHash: Bytes32, oracleSetEpoch: u64, latestOracleEpochSeen: u64, latestPrice: u64,
    reserveCommitteeHash: Bytes32,
    issuerRoot: Bytes32, operatorRoot: Bytes32, lockRoot: Bytes32, consumedRoot: Bytes32,
    refundRoot: Bytes32, nullifierRoot: Bytes32, pendingRoot: Bytes32,
    liveDaRoot: Bytes32, archivalDaRoot: Bytes32,
    anchorHash: Bytes32, anchorHeight: u32, anchorMtp: u64, anchorChainTime: u64)

  datatype RedeemIntent = RedeemIntent(
    version: nat, network: nat, redemptionId: Bytes32, assetFamilyId: Bytes32, amount: u64,
    btcRefundKey: Bytes32, btcClaimKey: Bytes32, assetRefundKey: Bytes32,
    operatorId: Option<Bytes32>, mode: nat, paymentHash: Bytes32,
    assetLockCsv: u32, btcHtlcCsv: u32, maxFeeBps: nat,
    anchorHeight: u32, anchorHash: Bytes32, expiryHeight: u32, nonce: Bytes32)

  datatype LockRecord = LockRecord(
    version: nat, intentHash: Bytes32, outpoint: OutPoint, anchorTxid: Bytes32,
    scriptKey: Bytes32, amount: u64, assetFamilyId: Bytes32, csvDelta: u32,
    paymentHash: Bytes32, lineageHash: Bytes32, verifiedBy: seq<Bytes32>, inclusionHeight: u32)

  datatype LockFinalize = LockFinalize(
    lockHash: Bytes32, preimage: Bytes32, anchorTxid: Bytes32, anchorOutpoint: OutPoint,
    sinkScriptKey: Bytes32, burnInternalKey: Bytes32, amount: u64, operatorId: Bytes32,
    height: u32, burnProofHash: Bytes32)

  datatype LockRefundRecord = LockRefundRecord(
    lockHash: Bytes32, anchorTxid: Bytes32, anchorOutpoint: OutPoint, userSignature: Sig64,
    height: u32, returnedTo: Bytes32)

  /** Only the two fields that the transitions read; the rest is for the SPV check. */
  datatype PayoutConfirmation = PayoutConfirmation(htlcValue: u64, revealedPreimage: Bytes32, chain: bytes)
  datatype DepositConfirmation = DepositConfirmation(chain: bytes)

  datatype OracleMessage = OracleMessage(
    domain: Bytes32, oracleId: Bytes32, setEpoch: u64, priceEpoch: u64, timestampMs: u64,
    pair: u64, price: u64, sourceCommitment: Bytes32, signer: Bytes32, signature: Sig64)

  datatype ClaimClock = ClaimClock(
    height: u32, hash: Bytes32, mtp: u64, chainTime: u64, headers: bytes,
    oracleEpoch: u64, selectedPrice: u64, maxEpochLag: u32, futureTolerance: u32)

  /** The fields of a reserve claim that its identifier commits to. */
  datatype ClaimInputs = ClaimInputs(
    transitionType: nat, operatorId: Bytes32, prevStateRoot: Bytes32, redemptionBatchRoot: Bytes32,
    unusedRoots: seq<Bytes32>, liveDaRoot: Bytes32, archivalDaRoot: Bytes32, anchor: ClaimClock,
    shardId: u64, reimbursement: u64, proofCommitment: Bytes32, expiryHeight: u32)

  datatype ReserveClaim = ReserveClaim(claimId: Bytes32, newStateRoot: Bytes32, inputs: ClaimInputs,
                                       operatorSignature: Sig64)

  datatype IssuerStatus = IssuerActive | IssuerPaused | IssuerFrozen | IssuerExiting

  datatype IssuerPosition = IssuerPosition(
    issuerId: Bytes32, status: IssuerStatus, multisigKeys: seq<Key33>, multisigThreshold: nat,
    reserveDeposits: u64, minted: u64, pendingMint: u64, collateralRatioPpm: u64,
    lastDeposit: Option<Bytes32>, freezeReason: Option<nat>, registeredAt: u32,
    pendingCommitment: Option<Bytes32>)

  datatype ClaimStatus = Pending | Finalized | Challenged | Expired | Reclaimed

  datatype PendingClaim = PendingClaim(
    claimId: Bytes32, operatorId: Bytes32, reserved: u64, createdHeight: u32, expiryHeight: u32, status: ClaimStatus)

  datatype OperatorStatus = OperatorActive | OperatorSuspended | OperatorSlashed

  datatype OperatorPosition = OperatorPosition(
    operatorId: Bytes32, status: OperatorStatus, key: Key33, bond: u64, maxClaim: u64,
    outstanding: u64, slashed: u64, registeredAt: u32)

  datatype MultisigSig = MultisigSig(signer: Key33, signature: Sig64)

  datatype MintRequest = MintRequest(atoms: u64, metadata: Bytes32, depositTxid: Bytes32)

  /** One redemption of a batch, without its tree proofs. */
  datatype Redemption = Redemption(
    intent: RedeemIntent, lock: LockRecord, finalize: LockFinalize, payout: PayoutConfirmation, burnProof: bytes)

  // --------------------------------------------------------------------- errors

  datatype OracleReject =
    OracleSetHashMismatch | QuorumInsufficient | WrongOracleSetEpoch | StaleOracle | FutureOracle
    | InsufficientInliers | SignatureInvalid | SignerNotInSet | DuplicateSigner | TooManyMessages

  datatype RedeemReject =
    IntentHashMismatch | LockScriptKeyMismatch | AssetFamilyMismatch | AmountMismatch | AmountOutOfRange
    | WrongMode | OperatorIdMissing | CsvTooShort | PaymentHashMismatch | Lineage(code: nat)
    | LockAlreadyExists | LockNotActive | LockConsumed | LockRefunded | NullifierUsed | PreimageMismatch
    | BurnSinkMismatch | BurnInternalKeyMismatch | FinalizeAmountMismatch | FinalizeOperatorMismatch | RedeemOverflow

  datatype ClaimReject =
    WrongTransitionType | BadStateLinkage | ClaimLinkageMismatch | ChainTimeInconsistent
    | ClaimOracle(oracle: OracleReject) | OraclePriceMismatch | Spv(code: nat) | ClaimRedeem(redeem: RedeemReject)
    | EmptyBatch | DuplicateInBatch | OperatorMismatch | PreimageNotRevealed | PayoutTooLow | ReimbursementMismatch
    | RedemptionBatchRootMismatch | LiveDaRootMismatch | ClaimIdMismatch | DuplicateClaim | PostStateMismatch
    | ClaimOverflow | BurnProof(burn: nat) | ClaimPanicked

  datatype MintReject =
    MintOverflow | IssuerMismatch | IssuerNotInState | IssuerNotActive | Deposit(code: nat) | ReserveCommitteeMismatch
    | MultisigThresholdNotMet | PendingMintExists | ZeroMintAmount | InsufficientCollateralAtCommit(crPpm: u64)
    | NoPendingMint | CommitMismatch | MintAnchorNotConfirmed | MintProofInvalid
    | InsufficientCollateralAtFinalize(crPpm: u64) | TierNotHealthy(crPpm: u64) | MintPanicked

  datatype RegistryReject =
    RegistryOverflow | IssuerAlreadyRegistered | IssuerNotFresh | BadMultisigConfig | OperatorAlreadyRegistered
    | OperatorNotFresh | ZeroMaxClaim | BondInsufficient | ClaimNotPresent | ClaimNotReclaimable | ClaimNotExpired
    | ClaimNotPending | ClaimExpired | ReserveInsufficient | CommitteeMismatch | ApprovalInsufficient | RegistryPanicked

  // ----------------------------------------------- hashes and outside checks

  /** Every hash as a function of all that it commits to, every signature scheme, and the
      SPV, lineage and burn checks, which answer with an error code or nothing. */
  datatype Crypto = Crypto(
    poseidon2: Hash,
    stateHash: StateRoot -> Bytes32,
    issuerHash: IssuerPosition -> Bytes32,
    operatorHash: OperatorPosition -> Bytes32,
    pendingHash: PendingClaim -> Bytes32,
    lockHash: LockRecord -> Bytes32,
    intentHash: RedeemIntent -> Bytes32,
    nullifier: (OutPoint, Bytes32, Bytes32) -> Bytes32,
    claimId: ClaimInputs -> Bytes32,
    mintCommitment: MintRequest -> Bytes32,
    mintSighash: (Bytes32, MintRequest, u64) -> Bytes32,
    committeeHash: (nat, multiset<Key33>) -> Bytes32,
    oracleSetHash: (u64, multiset<Bytes32>) -> Bytes32,
    batchRoot: seq<Bytes32> -> Bytes32,
    liveDaRoot: (seq<Redemption>, seq<OracleMessage>) -> Bytes32,
    sha256: Bytes32 -> Bytes32,
    lockKey: (Bytes32, Bytes32, Bytes32) -> Bytes32,
    sinkScriptKey: Bytes32 -> Bytes32,
    burnInternalKey: Bytes32 -> Bytes32,
    ecdsa: (Bytes32, Key33, Sig64) -> bool,
    eddsa: OracleMessage -> bool,
    lineage: (bytes, LockRecord, nat) -> Option<nat>,
    burn: (bytes, LockFinalize, Bytes32, nat) -> Option<nat>,
    payoutSpv: (PayoutConfirmation, Bytes32, nat, u32) -> Option<nat>,
    depositSpv: (DepositConfirmation, Bytes32, u64, seq<Key33>, nat, nat) -> Option<nat>)

  // ---------------------------------------------------------------- shared steps

  /** The marker value of a set member. */
  const SET_MEMBER: Bytes32 := 0x0101010101010101_0101010101010101_0101010101010101_0101010101010101

  function NextState(c: Crypto, prev: StateRoot, ttype: nat): StateRoot {
    prev.(stateEpoch := Wrap64(prev.stateEpoch + 1), prevStateRoot := c.stateHash(prev), transitionType := ttype)
  }

  datatype Cr = NoSupply | Ratio(ppm: u64) | Overflows

  /** Reserve value over supply, in parts per million; the product is checked in 128 bits. */
  function CollateralRatio(reserve: u64, supply: u64, price: u64): Cr {
    if supply == 0 then NoSupply else
    TimesNat(reserve, price);
    var num := Times(reserve, price) * 1_000_000;
    if num >= TWO128 then Overflows else
    var cr := Div(num, supply * 100_000_000_000_000);
    if cr >= TWO64 then Overflows else Ratio(cr)
  }

  function TierOf(ppm: nat): nat {
    if ppm >= 1_500_000 then 0 else if ppm >= 1_300_000 then 1 else if ppm >= 1_100_000 then 2 else 3
  }

  /** The state with ratio and tier recomputed; `None` where the source panics. */
  function WithTier(s: StateRoot, price: u64): Option<StateRoot> {
    match CollateralRatio(s.reserve, s.supply, price)
    case NoSupply => Some(s.(collateralRatioPpm := 0, emergencyTier := 0))
    case Ratio(ppm) => Some(s.(collateralRatioPpm := ppm, emergencyTier := TierOf(ppm)))
    case Overflows => None
  }

  /** The ratio, and with it the tier, in terms of the built-in operations: the tier is
      the number of thresholds that the reserve value does not reach. */
  lemma RatioThreshold(reserve: u64, supply: u64, price: u64, ppm: pos)
    requires CollateralRatio(reserve, supply, price).Ratio?
    ensures CollateralRatio(reserve, supply, price).ppm >= ppm <==>
      reserve * price * 1_000_000 >= ppm * (supply * 100_000_000_000_000)
  {
    TimesIs(reserve, price);
    var num, den: pos := reserve * price * 1_000_000, supply * 100_000_000_000_000;
    DivIs(num, den);
    QuotientReaches(num, den, ppm);
  }

  /** One for a threshold that the reserve's value misses. */
  function Missed(value: nat, unit: nat, ppm: nat): nat {
    if value < ppm * unit then 1 else 0
  }

  /** The ratio that a state stores is that of its own reserve, supply and price, rounded down,
      and its tier the number of thresholds 150, 130 and 110 percent that the reserve misses. */
  predicate Tiered(s: StateRoot) {
    if s.supply == 0 then s.collateralRatioPpm == 0 && s.emergencyTier == 0 else
    var value, unit := s.reserve * s.latestPrice * 1_000_000, s.supply * 100_000_000_000_000;
    && s.collateralRatioPpm * unit <= value < (s.collateralRatioPpm + 1) * unit
    && s.emergencyTier == Missed(value, unit, 1_500_000) + Missed(value, unit, 1_300_000)
      + Missed(value, unit, 1_100_000)
  }

  /** Recomputing ratio and tier leaves a state that stores its own, and changes no more. */
  lemma WithTierIs(s: StateRoot, price: u64)
    requires s.latestPrice == price && WithTier(s, price).Some?
    ensures var next := WithTier(s, price).value;
      next == s.(collateralRatioPpm := next.collateralRatioPpm, emergencyTier := next.emergencyTier) && Tiered(next)
  {
    if s.supply > 0 {
      RatioBounds(s.reserve, s.supply, price);
      hide CollateralRatio, Tiered, Missed, TierOf;
      var ppm := CollateralRatio(s.reserve, s.supply, price).ppm;
      TieredIf(s.(collateralRatioPpm := ppm, emergencyTier := TierOf(ppm)), ppm);
    }
  }

  lemma TieredIf(s: StateRoot, ppm: nat)
    requires s.supply > 0 && s.collateralRatioPpm == ppm && s.emergencyTier == TierOf(ppm)
    requires var value, unit := s.reserve * s.latestPrice * 1_000_000, s.supply * 100_000_000_000_000;
      Bounds(ppm, value, unit)
    ensures Tiered(s)
  {
    NotNegative(s.reserve, s.latestPrice);
  }

  predicate Bounds(ppm: nat, value: int, unit: int) {
    && ppm * unit <= value < (ppm + 1) * unit
    && (ppm >= 1_500_000 <==> value >= 1_500_000 * unit)
    && (ppm >= 1_300_000 <==> value >= 1_300_000 * unit)
    && (ppm >= 1_100_000 <==> value >= 1_100_000 * unit)
  }

  lemma RatioBounds(reserve: u64, supply: u64, price: u64)
    requires CollateralRatio(reserve, supply, price).Ratio?
    ensures Bounds(CollateralRatio(reserve, supply, price).ppm, reserve * price * 1_000_000,
                   supply * 100_000_000_000_000)
  {
    var ppm: int := CollateralRatio(reserve, supply, price).ppm;
    hide CollateralRatio;
    RatioThreshold(reserve, supply, price, 1_500_000);
    RatioThreshold(reserve, supply, price, 1_300_000);
    RatioThreshold(reserve, supply, price, 1_100_000);
    RatioThreshold(reserve, supply, price, ppm + 1);
    if ppm > 0 { RatioThreshold(reserve, supply, price, ppm); }
    NotNegative(reserve, price);
  }

  lemma NotNegative(a: nat, b: nat)
    ensures a * b >= 0
  {
  }

  lemma QuotientReaches(num: nat, den: pos, k: pos)
    ensures num / den >= k <==> num >= k * den
  {
    var q, r := num / den, num % den;
    assert num == q * den + r;
    Reaches(q, k, den, r);
  }

  lemma Reaches(q: int, k: int, den: pos, r: int)
    requires 0 <= r < den
    ensures q >= k <==> q * den + r >= k * den
  {
    assert q * den - k * den == (q - k) * den;
    if q >= k {
      if q > k { MulAtLeast(q - k, den); }
    } else {
      MulAtLeast(k - q, den);
      assert (k - q) * den == -((q - k) * den);
    }
  }

  /** The authorized keys with a valid signature in the list. */
  function SignersOf(c: Crypto, msg: Bytes32, keys: seq<Key33>, sigs: seq<MultisigSig>): set<Key33> {
    set s | s in sigs && s.signer in keys && c.ecdsa(msg, s.signer, s.signature) :: s.signer
  }

  /** Counts distinct authorized signers, skipping keys already seen. */
  method CountValidMultisig(c: Crypto, msg: Bytes32, keys: seq<Key33>, sigs: seq<MultisigSig>) returns (count: nat)
    ensures count == |SignersOf(c, msg, keys, sigs)|
  {
    var seen: seq<Key33> := [];
    count := 0;
    ghost var found: set<Key33> := {};
    for i := 0 to |sigs|
      invariant found == SignersOf(c, msg, keys, sigs[..i])
      invariant (forall k :: k in seen <==> k in found) && count == |found|
    {
      var s := sigs[i];
      assert sigs[..i + 1] == sigs[..i] + [s];
      if s.signer in keys && s.signer !in seen && c.ecdsa(msg, s.signer, s.signature) {
        seen := seen + [s.signer];
        count := count + 1;
        found := found + {s.signer};
      }
      assert found == SignersOf(c, msg, keys, sigs[..i + 1]);
    }
    assert sigs[..|sigs|] == sigs;
  }

  /** No key appears twice. */
  predicate DistinctKeys(keys: seq<Key33>) {
    forall i, j :: 0 <= i < j < |keys| ==> keys[i] != keys[j]
  }

  method CheckDistinctKeys(keys: seq<Key33>) returns (ok: bool)
    ensures ok <==> DistinctKeys(keys)
  {
    var seen: seq<Key33> := [];
    for i := 0 to |keys|
      invariant seen == keys[..i] && DistinctKeys(seen)
    {
      if keys[i] in seen {
        var j :| 0 <= j < i && seen[j] == keys[i];
        assert keys[j] == keys[i];
        return false;
      }
      seen := seen + [keys[i]];
    }
    ok := true;
  }

  lemma {:induction false} Ones(n: nat)
    ensures 255 * BE(seq(n, _ => 1)) + 1 == Pow256(n)
  {
    if n > 0 {
      Ones(n - 1);
      assert seq<Byte>(n, _ => 1)[..n - 1] == seq<Byte>(n - 1, _ => 1);
    }
  }

  /** What the set trees store is the word of 32 bytes of one. */
  lemma MemberWord()
    ensures SET_MEMBER == BE(seq(32, _ => 1))
  {
    Ones(32);
    Pow256Of32();
    hide BE, Pow256;
  }

  // ------------------------------------------------------ a tree's own proofs

  /** The proof that a tree gives for a key. */
  function OwnProof(h: Hash, vs: Values, key: Bytes32): (r: Proof)
    ensures |r| == HEIGHT
  {
    seq<Bytes32>(HEIGHT, d requires 0 <= d < HEIGHT => Node32(Sibling(h, LeavesOf(h, vs), key, d)))
  }

  function Node32(x: Fr): Bytes32 {
    FrOfWord(x);
    x
  }

  lemma OwnProofProves(h: Hash, vs: Values, key: Bytes32)
    ensures Proves(h, LeavesOf(h, vs), key, OwnProof(h, vs, key))
  {
    hide Sibling, LeavesOf;
  }

  /** All that the transitions use about a tree's own proof. */
  lemma Own(h: Hash, vs: Values, key: Bytes32)
    ensures |OwnProof(h, vs, key)| == HEIGHT
    ensures key in vs ==> VerifyInclusion(h, TreeRoot(h, vs), key, vs[key], OwnProof(h, vs, key))
    ensures key !in vs ==> VerifyExclusion(h, TreeRoot(h, vs), key, OwnProof(h, vs, key))
    ensures forall v: Bytes32 :: RootAfterUpdate(h, key, v, OwnProof(h, vs, key)) == TreeRoot(h, vs[key := v])
  {
    OwnProofProves(h, vs, key);
    OwnProofVerifies(h, vs, key, OwnProof(h, vs, key));
    forall v: Bytes32
      ensures RootAfterUpdate(h, key, v, OwnProof(h, vs, key)) == TreeRoot(h, vs[key := v])
    {
      hide *;
      UpdateIsInsert(h, vs, key, v, OwnProof(h, vs, key));
    }
    hide RootAfterUpdate, TreeRoot, VerifyInclusion, VerifyExclusion;
  }
}
