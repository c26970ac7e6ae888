/** The batched reserve claim: its verifier, which walks the redemptions with running
    set roots, and the pieces the builder shares with it. */
module Claim {
  import opened Options
  import opened Modular
  import opened Bytes
  import opened Smt
  import opened StateTypes
  import opened Aggregate
  import opened Transitions

  const MTP_LAG_OFFSET: nat := 3600
  const CONFIRMATION_DEPTH: nat := 6
  const E14: nat := 100_000_000_000_000

  datatype BatchRedemption = BatchRedemption(
    data: Redemption, member: Proof, unconsumed: Proof, unrefunded: Proof, unused: Proof)

  datatype ClaimWitness = ClaimWitness(
    claim: ReserveClaim, redemptions: seq<BatchRedemption>, messages: seq<OracleMessage>,
    signerSet: seq<Bytes32>, exclusion: Proof, tip: u32)

  function NullifierOf(c: Crypto, lock: LockRecord): Bytes32 {
    c.nullifier(lock.outpoint, lock.scriptKey, lock.intentHash)
  }

  /** Reimbursement of one redemption, in satoshis; the price is not zero. */
  function Gross(amount: u64, price: pos): nat {
    Div(amount * E14, price)
  }

  /** The verifier's loop variables. */
  datatype Running = Running(consumedRoot: Bytes32, nullifierRoot: Bytes32, amount: nat, gross: nat,
                             leaves: seq<Bytes32>)

  /** The checks of one redemption against the running roots, in the source's order. */
  function CheckRedemption(c: Crypto, prev: StateRoot, operatorId: Bytes32, price: u64, tip: u32, r: BatchRedemption,
                           run: Running): Option<ClaimReject> {
    var d := r.data;
    var binding := CheckBinding(c, d.intent, d.lock, prev.assetFamilyId);
    if binding.Some? then Some(ClaimRedeem(binding.value)) else
    if d.intent.operatorId != Some(operatorId) then Some(OperatorMismatch) else
    var id := c.lockHash(d.lock);
    if id in run.leaves then Some(DuplicateInBatch)
    else if !VerifyInclusion(c.poseidon2, prev.lockRoot, id, SET_MEMBER, r.member) then Some(ClaimRedeem(LockNotActive))
    else if !VerifyExclusion(c.poseidon2, run.consumedRoot, id, r.unconsumed) then Some(ClaimRedeem(LockConsumed))
    else if !VerifyExclusion(c.poseidon2, prev.refundRoot, id, r.unrefunded) then Some(ClaimRedeem(LockRefunded))
    else if !VerifyExclusion(c.poseidon2, run.nullifierRoot, NullifierOf(c, d.lock), r.unused) then
      Some(ClaimRedeem(NullifierUsed))
    else if c.sha256(d.finalize.preimage) != d.intent.paymentHash then Some(ClaimRedeem(PreimageMismatch))
    else if d.payout.revealedPreimage != d.finalize.preimage then Some(PreimageNotRevealed)
    else
      var spv := c.payoutSpv(d.payout, d.intent.paymentHash, CONFIRMATION_DEPTH, tip);
      if spv.Some? then Some(Spv(spv.value))
      else if d.finalize.sinkScriptKey != c.sinkScriptKey(prev.assetFamilyId) then Some(ClaimRedeem(BurnSinkMismatch))
      else if d.finalize.burnInternalKey != c.burnInternalKey(prev.assetFamilyId) then
        Some(ClaimRedeem(BurnInternalKeyMismatch))
      else
        var burn := c.burn(d.burnProof, d.finalize, prev.assetFamilyId, d.intent.network);
        if burn.Some? then Some(BurnProof(burn.value))
        else if d.finalize.amount != d.lock.amount then Some(ClaimRedeem(FinalizeAmountMismatch))
        else if d.finalize.operatorId != operatorId then Some(ClaimRedeem(FinalizeOperatorMismatch))
        else CheckPayout(d, price)
  }

  /** The payout covers the gross amount less the operator's fee.  A fee that floors to more
      than the gross amount makes the source's subtraction wrap to a number that no payout
      reaches. */
  function CheckPayout(d: Redemption, price: u64): Option<ClaimReject> {
    if price == 0 then Some(ClaimPanicked) else
    var gross := Gross(d.lock.amount, price);
    var fee := Times(gross, d.intent.maxFeeBps);
    if fee >= TWO128 then Some(ClaimOverflow)
    else if fee / 10_000 > gross || d.payout.htlcValue < gross - fee / 10_000 then Some(PayoutTooLow)
    else None
  }

  /** The payout check in the built-in operations. */
  lemma PayoutIff(d: Redemption, price: pos)
    requires price < TWO64
    ensures var g := d.lock.amount * 100_000_000_000_000 / price;
      CheckPayout(d, price) == None <==>
        && g * d.intent.maxFeeBps < 0x1_0000_0000_0000_0000_0000_0000_0000_0000 && g * d.intent.maxFeeBps / 10_000 <= g
        && d.payout.htlcValue >= g - g * d.intent.maxFeeBps / 10_000
  {
    DivIs(d.lock.amount * E14, price);
    TimesIs(d.lock.amount * E14 / price, d.intent.maxFeeBps);
  }

  /** The subtraction wraps exactly when the rate exceeds 10000 basis points by so much that
      the fee floors to more than the gross amount.  No payout is enough exactly when it wraps
      or leaves more than 64 bits hold. */
  lemma FeeWrapsIff(d: Redemption, price: pos)
    requires price < TWO64
    ensures var g := d.lock.amount * 100_000_000_000_000 / price;
      && (g * d.intent.maxFeeBps / 10_000 > g <==> g * d.intent.maxFeeBps >= 10_000 * (g + 1))
      && (g * d.intent.maxFeeBps < 0x1_0000_0000_0000_0000_0000_0000_0000_0000 ==>
           ((forall paid: u64 :: CheckPayout(Paying(d, paid), price) == Some(PayoutTooLow)) <==>
             g * d.intent.maxFeeBps / 10_000 > g || g - g * d.intent.maxFeeBps / 10_000 >= TWO64))
  {
    var g, bps := d.lock.amount * E14 / price, d.intent.maxFeeBps;
    FloorExceeds(g * bps, g);
    forall paid: u64
      ensures CheckPayout(Paying(d, paid), price) == None <==>
        g * bps < TWO128 && g * bps / 10_000 <= g && paid >= g - g * bps / 10_000
    {
      PayoutIff(Paying(d, paid), price);
    }
    if g * bps < TWO128 {
      forall paid: u64
        ensures CheckPayout(Paying(d, paid), price).Some? ==> CheckPayout(Paying(d, paid), price) == Some(PayoutTooLow)
      {
        RefusedPayout(Paying(d, paid), price);
      }
      assert CheckPayout(Paying(d, TWO64 - 1), price) == None
        <==> g * bps / 10_000 <= g && TWO64 - 1 >= g - g * bps / 10_000;
    }
    hide CheckPayout;
  }

  /** The same redemption with another amount in the payout's output. */
  function Paying(d: Redemption, paid: u64): Redemption {
    d.(payout := d.payout.(htlcValue := paid))
  }

  lemma RefusedPayout(d: Redemption, price: pos)
    requires price < TWO64 && (d.lock.amount * E14 / price) * d.intent.maxFeeBps < TWO128
    ensures CheckPayout(d, price).Some? ==> CheckPayout(d, price) == Some(PayoutTooLow)
  {
    DivIs(d.lock.amount * E14, price);
    TimesIs(d.lock.amount * E14 / price, d.intent.maxFeeBps);
  }

  lemma FloorExceeds(v: nat, g: nat)
    ensures v / 10_000 > g <==> v >= 10_000 * (g + 1)
  {
  }

  /** Two inputs at one price.  A rate of 10001 basis points on the least redemption does not
      wrap, and a payout of nothing passes; on a larger one it wraps. */
  lemma FeeAboveTheWhole(d: Redemption)
    requires d.intent.maxFeeBps == 10_001
    ensures d.lock.amount == 100 && d.payout.htlcValue == 0 ==>
      CheckPayout(d, 5_000_000_000_000) == None
    ensures d.lock.amount == 1_000_000 ==> CheckPayout(d, 5_000_000_000_000) == Some(PayoutTooLow)
  {
    if d.lock.amount == MIN_REDEMPTION_ATOMS {
      assert MIN_REDEMPTION_ATOMS * E14 / 5_000_000_000_000 == 2_000 && 2_000 * 10_001 / 10_000 == 2_000;
      PayoutIff(d, 5_000_000_000_000);
    } else if d.lock.amount == 10_000 * MIN_REDEMPTION_ATOMS {
      assert 10_000 * MIN_REDEMPTION_ATOMS * E14 / 5_000_000_000_000 == 20_000_000
        && 20_000_000 * 10_001 / 10_000 == 20_002_000;
      PayoutIff(d, 5_000_000_000_000);
      RefusedPayout(d, 5_000_000_000_000);
    }
    hide CheckPayout;
  }

  /** The loop variables after one redemption that passed. */
  function Advance(c: Crypto, price: pos, r: BatchRedemption, run: Running): Running
    requires |r.unconsumed| == |r.unused| == HEIGHT
  {
    var id := c.lockHash(r.data.lock);
    Running(RootAfterUpdate(c.poseidon2, id, SET_MEMBER, r.unconsumed),
            RootAfterUpdate(c.poseidon2, NullifierOf(c, r.data.lock), SET_MEMBER, r.unused),
            run.amount + r.data.intent.amount, run.gross + Gross(r.data.lock.amount, price), run.leaves + [id])
  }

  lemma CheckedProofs(c: Crypto, prev: StateRoot, operatorId: Bytes32, price: u64, tip: u32, r: BatchRedemption,
                      run: Running)
    requires CheckRedemption(c, prev, operatorId, price, tip, r, run).None?
    ensures |r.unconsumed| == |r.unused| == HEIGHT && price > 0
  {
  }

  /** The loop over the first `k` redemptions. */
  function RunBatch(c: Crypto, prev: StateRoot, operatorId: Bytes32, price: u64, tip: u32, rs: seq<BatchRedemption>,
                    k: nat): Result<Running, ClaimReject>
    requires k <= |rs|
  {
    if k == 0 then Ok(Running(prev.consumedRoot, prev.nullifierRoot, 0, 0, [])) else
    var run :- RunBatch(c, prev, operatorId, price, tip, rs, k - 1);
    var refused := CheckRedemption(c, prev, operatorId, price, tip, rs[k - 1], run);
    if refused.Some? then Err(refused.value) else
    CheckedProofs(c, prev, operatorId, price, tip, rs[k - 1], run);
    Ok(Advance(c, price, rs[k - 1], run))
  }

  function DataOf(rs: seq<BatchRedemption>): (r: seq<Redemption>)
    ensures |r| == |rs|
  {
    seq<Redemption>(|rs|, i requires 0 <= i < |rs| => rs[i].data)
  }

  /** The claim that a batch opens. */
  function OpenedClaim(id: Bytes32, inputs: ClaimInputs): PendingClaim {
    PendingClaim(id, inputs.operatorId, inputs.reimbursement, inputs.anchor.height, inputs.expiryHeight, Pending)
  }

  /** The aggregate checks after the loop, and the whole-state comparison. */
  function CheckTotals(c: Crypto, prev: StateRoot, next: StateRoot, w: ClaimWitness, price: u64,
                       run: Running): Option<ClaimReject> {
    var inputs := w.claim.inputs;
    if run.amount >= TWO64 || run.gross >= TWO64 then Some(ClaimOverflow)
    else if prev.supply < run.amount || prev.reservedPending + run.gross >= TWO64 then Some(ClaimOverflow)
    else if inputs.reimbursement != run.gross then Some(ReimbursementMismatch)
    else if inputs.redemptionBatchRoot != c.batchRoot(run.leaves) then Some(RedemptionBatchRootMismatch)
    else if inputs.liveDaRoot != c.liveDaRoot(DataOf(w.redemptions), w.messages) then Some(LiveDaRootMismatch)
    else if w.claim.claimId != c.claimId(inputs) then Some(ClaimIdMismatch)
    else if !VerifyExclusion(c.poseidon2, prev.pendingRoot, w.claim.claimId, w.exclusion) then Some(DuplicateClaim)
    else
      match Expected(c, prev, w, price, run)
      case None => Some(ClaimPanicked)
      case Some(expected) => if next != expected then Some(PostStateMismatch) else None
  }

  /** The post-state that the verifier computes. */
  function Expected(c: Crypto, prev: StateRoot, w: ClaimWitness, price: u64, run: Running): Option<StateRoot>
    requires run.amount <= prev.supply && prev.reservedPending + run.gross < TWO64 && |w.exclusion| == HEIGHT
  {
    var inputs := w.claim.inputs;
    WithTier(NextState(c, prev, REDEEM_FAST_FINALIZE).(
      supply := prev.supply - run.amount,
      reservedPending := prev.reservedPending + run.gross,
      latestPrice := price,
      consumedRoot := run.consumedRoot,
      nullifierRoot := run.nullifierRoot,
      liveDaRoot := inputs.liveDaRoot,
      pendingRoot :=
        RootAfterUpdate(c.poseidon2, w.claim.claimId, c.pendingHash(OpenedClaim(w.claim.claimId, inputs)),
                        w.exclusion)), price)
  }

  function ParamsFor(s: StateRoot, chainTime: u64, anchor: ClaimClock, signerSet: seq<Bytes32>): OracleParams {
    OracleParams(s.oracleSetEpoch, s.oracleSetHash, chainTime, anchor.maxEpochLag, anchor.futureTolerance, signerSet)
  }

  /** The price that both the builder and the verifier take from the quorum. */
  function QuorumPrice(c: Crypto, s: StateRoot, chainTime: u64, anchor: ClaimClock, messages: seq<OracleMessage>,
                       signerSet: seq<Bytes32>): Result<u64, OracleReject> {
    var bad := VerifySignatures(c, messages);
    if bad.Some? then Err(bad.value) else Aggregated(c, messages, ParamsFor(s, chainTime, anchor, signerSet))
  }

  /** A message from the signer set on record, no older and no newer than the claim's clock
      tolerates. */
  predicate Timely(m: OracleMessage, epoch: u64, chainTime: u64, anchor: ClaimClock, signerSet: seq<Bytes32>) {
    var seconds := m.timestampMs / 1000;
    && m.signer in signerSet && m.setEpoch == epoch
    && chainTime - seconds <= anchor.maxEpochLag && seconds - chainTime <= anchor.futureTolerance
  }

  /** When a quorum quotes a price: every message is signed and timely, the signer set is the
      one on record, and the price is the aggregate. */
  lemma QuorumPriceIff(c: Crypto, s: StateRoot, chainTime: u64, anchor: ClaimClock, ms: seq<OracleMessage>,
                       signerSet: seq<Bytes32>, m: u64)
    ensures QuorumPrice(c, s, chainTime, anchor, ms, signerSet) == Ok(m) <==>
      && (forall i :: 0 <= i < |ms| ==>
           c.eddsa(ms[i]) && Timely(ms[i], s.oracleSetEpoch, chainTime, anchor, signerSet))
      && c.oracleSetHash(s.oracleSetEpoch, multiset(signerSet)) == s.oracleSetHash && 3 <= |ms| <= 5
      && (forall i, j :: 0 <= i < j < |ms| ==> ms[i].signer != ms[j].signer)
      && IsMiddle(ms, m) && ThreeNear(ms, m)
  {
    var p := ParamsFor(s, chainTime, anchor, signerSet);
    AggregatedIff(c, ms, p, m);
    forall i | 0 <= i < |ms|
      ensures Fine(ms[i], p) <==> Timely(ms[i], s.oracleSetEpoch, chainTime, anchor, signerSet)
    {
    }
    hide Aggregated, Fine, Timely, IsMiddle, ThreeNear;
  }

  function VerifyClaim(c: Crypto, prev: StateRoot, next: StateRoot, w: ClaimWitness): Option<ClaimReject> {
    var inputs := w.claim.inputs;
    var prevHash := c.stateHash(prev);
    if next.transitionType != REDEEM_FAST_FINALIZE then Some(WrongTransitionType)
    else if next.stateEpoch != Wrap64(prev.stateEpoch + 1) || next.prevStateRoot != prevHash then Some(BadStateLinkage)
    else if inputs.transitionType != REDEEM_FAST_FINALIZE || inputs.prevStateRoot != prevHash
      || w.claim.newStateRoot != c.stateHash(next) then Some(ClaimLinkageMismatch)
    else if prev.anchorMtp + MTP_LAG_OFFSET >= TWO64 then Some(ClaimOverflow)
    else if inputs.anchor.chainTime != prev.anchorMtp + MTP_LAG_OFFSET then Some(ChainTimeInconsistent)
    else
      var price := QuorumPrice(c, prev, prev.anchorMtp + MTP_LAG_OFFSET, inputs.anchor, w.messages, w.signerSet);
      if price.Err? then Some(ClaimOracle(price.error))
      else if inputs.anchor.selectedPrice != price.value then Some(OraclePriceMismatch)
      else if |w.redemptions| == 0 then Some(EmptyBatch)
      else
        var run := RunBatch(c, prev, inputs.operatorId, price.value, w.tip, w.redemptions, |w.redemptions|);
        if run.Err? then Some(run.error) else CheckTotals(c, prev, next, w, price.value, run.value)
  }

  lemma {:induction false} RunBatchFails(c: Crypto, prev: StateRoot, operatorId: Bytes32, price: u64, tip: u32,
                                         rs: seq<BatchRedemption>, k: nat, n: nat)
    requires k <= n <= |rs| && RunBatch(c, prev, operatorId, price, tip, rs, k).Err?
    ensures RunBatch(c, prev, operatorId, price, tip, rs, n) == RunBatch(c, prev, operatorId, price, tip, rs, k)
  {
    hide CheckRedemption;
    if k < n { RunBatchFails(c, prev, operatorId, price, tip, rs, k, n - 1); }
  }

  /** The verifier with its loop. */
  method VerifyReserveClaim(c: Crypto, prev: StateRoot, next: StateRoot, w: ClaimWitness)
      returns (r: Option<ClaimReject>)
    ensures r == VerifyClaim(c, prev, next, w)
  {
    hide CheckRedemption, CheckTotals, Aggregated, Gross, RootAfterUpdate, NullifierOf;
    var inputs := w.claim.inputs;
    var prevHash := c.stateHash(prev);
    if next.transitionType != REDEEM_FAST_FINALIZE { return Some(WrongTransitionType); }
    if next.stateEpoch != Wrap64(prev.stateEpoch + 1) || next.prevStateRoot != prevHash {
      return Some(BadStateLinkage);
    }
    if inputs.transitionType != REDEEM_FAST_FINALIZE || inputs.prevStateRoot != prevHash
      || w.claim.newStateRoot != c.stateHash(next) {
      return Some(ClaimLinkageMismatch);
    }
    if prev.anchorMtp + MTP_LAG_OFFSET >= TWO64 { return Some(ClaimOverflow); }
    var chainTime: u64 := prev.anchorMtp + MTP_LAG_OFFSET;
    if inputs.anchor.chainTime != chainTime { return Some(ChainTimeInconsistent); }
    var bad := CheckSignatures(c, w.messages);
    if bad.Some? { return Some(ClaimOracle(bad.value)); }
    var price := Aggregate.Aggregate(c, w.messages, ParamsFor(prev, chainTime, inputs.anchor, w.signerSet));
    if price.Err? { return Some(ClaimOracle(price.error)); }
    if inputs.anchor.selectedPrice != price.value { return Some(OraclePriceMismatch); }
    if |w.redemptions| == 0 { return Some(EmptyBatch); }
    var rs, p := w.redemptions, price.value;
    var run := Running(prev.consumedRoot, prev.nullifierRoot, 0, 0, []);
    for i := 0 to |rs|
      invariant RunBatch(c, prev, inputs.operatorId, p, w.tip, rs, i) == Ok(run)
    {
      var refused := CheckRedemption(c, prev, inputs.operatorId, p, w.tip, rs[i], run);
      if refused.Some? {
        RunBatchFails(c, prev, inputs.operatorId, p, w.tip, rs, i + 1, |rs|);
        return Some(refused.value);
      }
      CheckedProofs(c, prev, inputs.operatorId, p, w.tip, rs[i], run);
      var id := c.lockHash(rs[i].data.lock);
      run := Running(RootAfterUpdate(c.poseidon2, id, SET_MEMBER, rs[i].unconsumed),
                     RootAfterUpdate(c.poseidon2, NullifierOf(c, rs[i].data.lock), SET_MEMBER, rs[i].unused),
                     run.amount + rs[i].data.intent.amount, run.gross + Gross(rs[i].data.lock.amount, p),
                       run.leaves + [id]);
    }
    r := CheckTotals(c, prev, next, w, p, run);
  }
}
