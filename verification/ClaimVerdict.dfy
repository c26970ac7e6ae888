/** When the claim verifier accepts, for any witness whatsoever: the exact conditions in plain
    terms, and the one next state that they leave. */
module ClaimVerdict {
  import opened Options
  import opened Modular
  import opened Bytes
  import opened Smt
  import opened StateTypes
  import opened Transitions
  import opened Claim
  import opened NodeClaim
  import opened NodeEffects
  import opened NodeAccepts
  import opened NodeStates
  import opened NodeSubmits

  // ------------------------------------------------------------------- the batch

  /** The set roots after the first `k` redemptions, as their own proofs give them. */
  function ConsumedRoot(c: Crypto, prev: StateRoot, rs: seq<BatchRedemption>, k: nat): Bytes32
    requires k <= |rs|
  {
    if k == 0 then prev.consumedRoot else
    var r := rs[k - 1];
    if |r.unconsumed| != HEIGHT then 0 else
    RootAfterUpdate(c.poseidon2, c.lockHash(r.data.lock), SET_MEMBER, r.unconsumed)
  }

  function NullifierRoot(c: Crypto, prev: StateRoot, rs: seq<BatchRedemption>, k: nat): Bytes32
    requires k <= |rs|
  {
    if k == 0 then prev.nullifierRoot else
    var r := rs[k - 1];
    if |r.unused| != HEIGHT then 0 else
    RootAfterUpdate(c.poseidon2, c.nullifier(r.data.lock.outpoint, r.data.lock.scriptKey, r.data.lock.intentHash),
                    SET_MEMBER, r.unused)
  }

  /** Redemption `k` passes: it can be settled, its lock is recorded, not refunded and not
      consumed, also not by the redemptions before it, and its nullifier is unused. */
  predicate Passes(c: Crypto, prev: StateRoot, operatorId: Bytes32, price: u64, tip: u32, rs: seq<BatchRedemption>,
                   k: nat)
    requires k < |rs|
  {
    var r := rs[k];
    var id := c.lockHash(r.data.lock);
    && Settleable(c, prev.assetFamilyId, operatorId, price, tip, r.data)
    && id !in LockHashes(c, DataOf(rs), k)
    && VerifyInclusion(c.poseidon2, prev.lockRoot, id, SET_MEMBER, r.member)
    && VerifyExclusion(c.poseidon2, ConsumedRoot(c, prev, rs, k), id, r.unconsumed)
    && VerifyExclusion(c.poseidon2, prev.refundRoot, id, r.unrefunded)
    && VerifyExclusion(c.poseidon2, NullifierRoot(c, prev, rs, k),
                       c.nullifier(r.data.lock.outpoint, r.data.lock.scriptKey, r.data.lock.intentHash), r.unused)
  }

  /** The loop variables after `k` redemptions. */
  ghost predicate Ran(c: Crypto, prev: StateRoot, price: pos, rs: seq<BatchRedemption>, k: nat, run: Running)
    requires k <= |rs|
  {
    && run.consumedRoot == ConsumedRoot(c, prev, rs, k) && run.nullifierRoot == NullifierRoot(c, prev, rs, k)
    && run.amount == AmountSum(DataOf(rs)[..k]) && run.gross == GrossSum(DataOf(rs)[..k], price)
    && run.leaves == LockHashes(c, DataOf(rs), k)
  }

  lemma PassesIff(c: Crypto, prev: StateRoot, operatorId: Bytes32, price: pos, tip: u32, rs: seq<BatchRedemption>,
                  k: nat, run: Running)
    requires price < TWO64 && k < |rs| && Ran(c, prev, price, rs, k, run)
    ensures CheckRedemption(c, prev, operatorId, price, tip, rs[k], run).None? <==>
      Passes(c, prev, operatorId, price, tip, rs, k)
  {
    hide CheckRedemption, Settleable, VerifyInclusion, VerifyExclusion, LockHashes, ConsumedRoot, NullifierRoot,
      AmountSum, GrossSum;
    CheckRedemptionIff(c, prev, operatorId, price, tip, rs[k], run);
  }

  lemma RanStart(c: Crypto, prev: StateRoot, price: pos, rs: seq<BatchRedemption>)
    ensures Ran(c, prev, price, rs, 0, Running(prev.consumedRoot, prev.nullifierRoot, 0, 0, []))
  {
  }

  lemma RanStep(c: Crypto, prev: StateRoot, price: pos, rs: seq<BatchRedemption>, k: nat, run: Running)
    requires price < TWO64 && 0 < k <= |rs| && Ran(c, prev, price, rs, k - 1, run)
    requires |rs[k - 1].unconsumed| == |rs[k - 1].unused| == HEIGHT
    ensures Ran(c, prev, price, rs, k, Advance(c, price, rs[k - 1], run))
  {
    hide RootAfterUpdate, Gross, AmountSum, GrossSum, LockHashes;
    AmountStep(DataOf(rs), k);
    GrossStep(DataOf(rs), price, k);
    LockHashesStep(c, DataOf(rs), k);
  }

  lemma LockHashesStep(c: Crypto, rs: seq<Redemption>, k: nat)
    requires 0 < k <= |rs|
    ensures LockHashes(c, rs, k) == LockHashes(c, rs, k - 1) + [c.lockHash(rs[k - 1].lock)]
  {
  }

  lemma RunStep(c: Crypto, prev: StateRoot, operatorId: Bytes32, price: u64, tip: u32, rs: seq<BatchRedemption>,
                k: nat)
    requires 0 < k <= |rs| && RunBatch(c, prev, operatorId, price, tip, rs, k - 1).Ok?
    requires CheckRedemption(c, prev, operatorId, price, tip, rs[k - 1],
                             RunBatch(c, prev, operatorId, price, tip, rs, k - 1).value).None?
    ensures |rs[k - 1].unconsumed| == |rs[k - 1].unused| == HEIGHT && price > 0
    ensures RunBatch(c, prev, operatorId, price, tip, rs, k) ==
      Ok(Advance(c, price, rs[k - 1], RunBatch(c, prev, operatorId, price, tip, rs, k - 1).value))
  {
    CheckedProofs(c, prev, operatorId, price, tip, rs[k - 1],
                  RunBatch(c, prev, operatorId, price, tip, rs, k - 1).value);
    hide CheckRedemption, Advance;
  }

  lemma RunNothing(c: Crypto, prev: StateRoot, operatorId: Bytes32, price: u64, tip: u32, rs: seq<BatchRedemption>)
    ensures RunBatch(c, prev, operatorId, price, tip, rs, 0) ==
      Ok(Running(prev.consumedRoot, prev.nullifierRoot, 0, 0, []))
  {
  }

  /** The loop goes through exactly when every redemption passes, and ends with the sums, the
      lock hashes and the last roots. */
  lemma {:induction false} RunIff(c: Crypto, prev: StateRoot, operatorId: Bytes32, price: pos, tip: u32,
                                  rs: seq<BatchRedemption>, k: nat)
    requires price < TWO64 && k <= |rs|
    ensures RunBatch(c, prev, operatorId, price, tip, rs, k).Ok? <==>
      forall j :: 0 <= j < k ==> Passes(c, prev, operatorId, price, tip, rs, j)
    ensures RunBatch(c, prev, operatorId, price, tip, rs, k).Ok? ==>
      Ran(c, prev, price, rs, k, RunBatch(c, prev, operatorId, price, tip, rs, k).value)
    decreases k
  {
    hide *;
    if k == 0 {
      RanStart(c, prev, price, rs);
      RunNothing(c, prev, operatorId, price, tip, rs);
    } else {
      RunIff(c, prev, operatorId, price, tip, rs, k - 1);
      var before := RunBatch(c, prev, operatorId, price, tip, rs, k - 1);
      if before.Ok? {
        PassesIff(c, prev, operatorId, price, tip, rs, k - 1, before.value);
        RunExtends(c, prev, operatorId, price, tip, rs, k);
        if CheckRedemption(c, prev, operatorId, price, tip, rs[k - 1], before.value).None? {
          RunStep(c, prev, operatorId, price, tip, rs, k);
          RanStep(c, prev, price, rs, k, before.value);
        }
      } else {
        RunBatchFails(c, prev, operatorId, price, tip, rs, k - 1, k);
      }
    }
  }

  lemma NoPriceFails(c: Crypto, prev: StateRoot, operatorId: Bytes32, tip: u32, rs: seq<BatchRedemption>)
    requires |rs| > 0
    ensures RunBatch(c, prev, operatorId, 0, tip, rs, |rs|).Err?
  {
    RunNothing(c, prev, operatorId, 0, tip, rs);
    if RunBatch(c, prev, operatorId, 0, tip, rs, 1).Ok? {
      RunExtends(c, prev, operatorId, 0, tip, rs, 1);
      CheckedProofs(c, prev, operatorId, 0, tip, rs[0], RunBatch(c, prev, operatorId, 0, tip, rs, 0).value);
    }
    hide CheckRedemption, RunBatch;
    RunBatchFails(c, prev, operatorId, 0, tip, rs, 1, |rs|);
  }

  // --------------------------------------------------------------- the next state

  lemma TieredUnique(a: StateRoot, b: StateRoot)
    requires Tiered(a) && Tiered(b) && a.supply == b.supply && a.reserve == b.reserve && a.latestPrice == b.latestPrice
    ensures a.collateralRatioPpm == b.collateralRatioPpm && a.emergencyTier == b.emergencyTier
  {
    if a.supply > 0 {
      var value, unit: pos := a.reserve * a.latestPrice * 1_000_000, a.supply * 100_000_000_000_000;
      QuotientUnique(a.collateralRatioPpm, b.collateralRatioPpm, value, unit);
    }
  }

  lemma QuotientUnique(a: int, b: int, value: int, unit: pos)
    requires a * unit <= value < (a + 1) * unit && b * unit <= value < (b + 1) * unit
    ensures a == b
  {
    if a < b { MulAtLeast(b - a, unit); GapIs(b, a, unit); }
    if b < a { MulAtLeast(a - b, unit); GapIs(a, b, unit); }
  }

  lemma GapIs(a: int, b: int, unit: int)
    ensures (a - b) * unit == a * unit - b * unit && (b + 1) * unit == b * unit + unit
  {
  }

  /** The state that a verified claim leaves. */
  predicate Claimed(c: Crypto, prev: StateRoot, next: StateRoot, w: ClaimWitness, amount: nat, gross: nat)
    requires |w.exclusion| == HEIGHT
  {
    var inputs, n := w.claim.inputs, |w.redemptions|;
    && Follows(c, prev, next, 0x11) && SameSettings(prev, next) && Tiered(next)
    && next.supply == prev.supply - amount && next.reserve == prev.reserve
    && next.reservedPending == prev.reservedPending + gross
    && next.latestPrice == inputs.anchor.selectedPrice && next.liveDaRoot == inputs.liveDaRoot
    && next.issuerRoot == prev.issuerRoot && next.operatorRoot == prev.operatorRoot
    && next.lockRoot == prev.lockRoot && next.refundRoot == prev.refundRoot
    && next.consumedRoot == ConsumedRoot(c, prev, w.redemptions, n)
    && next.nullifierRoot == NullifierRoot(c, prev, w.redemptions, n)
    && next.pendingRoot ==
         RootAfterUpdate(c.poseidon2, w.claim.claimId,
                         c.pendingHash(PendingClaim(w.claim.claimId, inputs.operatorId, inputs.reimbursement,
                                                    inputs.anchor.height, inputs.expiryHeight, Pending)), w.exclusion)
  }

  /** The post-state that the verifier computes is the one that it leaves. */
  lemma ExpectedIff(c: Crypto, prev: StateRoot, next: StateRoot, w: ClaimWitness, run: Running)
    requires var price := w.claim.inputs.anchor.selectedPrice;
      price > 0 && Ran(c, prev, price, w.redemptions, |w.redemptions|, run)
    requires run.amount <= prev.supply && prev.reservedPending + run.gross < TWO64 && |w.exclusion| == HEIGHT
    ensures var price := w.claim.inputs.anchor.selectedPrice;
      Expected(c, prev, w, price, run) == Some(next) <==>
        && Claimed(c, prev, next, w, run.amount, run.gross)
        && Computable(prev.reserve, prev.supply - run.amount, price)
  {
    var inputs, price := w.claim.inputs, w.claim.inputs.anchor.selectedPrice;
    var s := NextState(c, prev, REDEEM_FAST_FINALIZE).(
      supply := prev.supply - run.amount,
      reservedPending := prev.reservedPending + run.gross,
      latestPrice := price,
      consumedRoot := run.consumedRoot,
      nullifierRoot := run.nullifierRoot,
      liveDaRoot := inputs.liveDaRoot,
      pendingRoot :=
        RootAfterUpdate(c.poseidon2, w.claim.claimId, c.pendingHash(OpenedClaim(w.claim.claimId, inputs)),
                        w.exclusion));
    hide RootAfterUpdate, Tiered, ConsumedRoot, NullifierRoot, AmountSum, GrossSum, LockHashes, CollateralRatio, DataOf;
    assert Expected(c, prev, w, price, run) == WithTier(s, price);
    assert WithTier(s, price).Some? <==> Computable(prev.reserve, prev.supply - run.amount, price);
    hide WithTier, Computable;
    if WithTier(s, price).Some? {
      WithTierIs(s, price);
      if Claimed(c, prev, next, w, run.amount, run.gross) { TieredUnique(next, WithTier(s, price).value); }
    }
  }

  // ------------------------------------------------------------------ the verdict

  /** The claim is about this step, by its clock, at the quorum's price. */
  predicate Linked(c: Crypto, prev: StateRoot, next: StateRoot, w: ClaimWitness) {
    var inputs, price := w.claim.inputs, w.claim.inputs.anchor.selectedPrice;
    && inputs.transitionType == 0x11 && inputs.prevStateRoot == c.stateHash(prev)
    && w.claim.newStateRoot == c.stateHash(next)
    && prev.anchorMtp + 3600 < TWO64 && inputs.anchor.chainTime == prev.anchorMtp + 3600
    && price > 0 && QuorumPrice(c, prev, inputs.anchor.chainTime, inputs.anchor, w.messages, w.signerSet) == Ok(price)
    && |w.redemptions| > 0
  }

  /** What it claims adds up, its name is new, and the next state is the one it leaves. */
  predicate AddsUp(c: Crypto, prev: StateRoot, next: StateRoot, w: ClaimWitness)
    requires w.claim.inputs.anchor.selectedPrice > 0
  {
    var inputs, data, price := w.claim.inputs, DataOf(w.redemptions), w.claim.inputs.anchor.selectedPrice;
    && AmountSum(data) <= prev.supply && prev.reservedPending + GrossSum(data, price) < TWO64
    && inputs.reimbursement == GrossSum(data, price)
    && inputs.redemptionBatchRoot == c.batchRoot(LockHashes(c, data, |data|))
    && inputs.liveDaRoot == c.liveDaRoot(data, w.messages) && w.claim.claimId == c.claimId(inputs)
    && |w.exclusion| == HEIGHT && VerifyExclusion(c.poseidon2, prev.pendingRoot, w.claim.claimId, w.exclusion)
    && Claimed(c, prev, next, w, AmountSum(data), GrossSum(data, price))
    && Computable(prev.reserve, prev.supply - AmountSum(data), price)
  }

  /** Everything that a verified claim says is so. */
  predicate Verdict(c: Crypto, prev: StateRoot, next: StateRoot, w: ClaimWitness) {
    var inputs := w.claim.inputs;
    && Linked(c, prev, next, w) && AddsUp(c, prev, next, w)
    && forall k :: 0 <= k < |w.redemptions| ==>
         Passes(c, prev, inputs.operatorId, inputs.anchor.selectedPrice, w.tip, w.redemptions, k)
  }

  lemma ExclusionLength(h: Hash, root: Bytes32, key: Bytes32, proof: Proof)
    requires VerifyExclusion(h, root, key, proof)
    ensures |proof| == HEIGHT
  {
  }

  /** The checks after the loop. */
  lemma TotalsIff(c: Crypto, prev: StateRoot, next: StateRoot, w: ClaimWitness, run: Running)
    requires var price := w.claim.inputs.anchor.selectedPrice;
      price > 0 && Ran(c, prev, price, w.redemptions, |w.redemptions|, run)
    ensures CheckTotals(c, prev, next, w, w.claim.inputs.anchor.selectedPrice, run) == None <==>
      AddsUp(c, prev, next, w)
  {
    var inputs, data, price := w.claim.inputs, DataOf(w.redemptions), w.claim.inputs.anchor.selectedPrice;
    assert data[..|data|] == data;
    hide VerifyExclusion, Expected, Claimed, Computable, AmountSum, GrossSum, LockHashes, ConsumedRoot, NullifierRoot,
      DataOf;
    if VerifyExclusion(c.poseidon2, prev.pendingRoot, w.claim.claimId, w.exclusion) {
      ExclusionLength(c.poseidon2, prev.pendingRoot, w.claim.claimId, w.exclusion);
      if run.amount <= prev.supply && prev.reservedPending + run.gross < TWO64 { ExpectedIff(c, prev, next, w, run); }
    }
  }

  /** The verifier's steps up to the totals. */
  lemma VerifySteps(c: Crypto, prev: StateRoot, next: StateRoot, w: ClaimWitness)
    ensures var inputs, price := w.claim.inputs, w.claim.inputs.anchor.selectedPrice;
      var run := RunBatch(c, prev, inputs.operatorId, price, w.tip, w.redemptions, |w.redemptions|);
      (VerifyClaim(c, prev, next, w) == None && price > 0) <==>
        && Follows(c, prev, next, 0x11) && Linked(c, prev, next, w)
        && run.Ok? && CheckTotals(c, prev, next, w, price, run.value) == None
  {
    hide QuorumPrice, RunBatch, CheckTotals;
  }

  lemma VerifyPrice(c: Crypto, prev: StateRoot, next: StateRoot, w: ClaimWitness)
    requires VerifyClaim(c, prev, next, w) == None
    ensures w.claim.inputs.anchor.selectedPrice > 0
  {
    hide QuorumPrice, RunBatch, CheckTotals;
    if |w.redemptions| > 0 { NoPriceFails(c, prev, w.claim.inputs.operatorId, w.tip, w.redemptions); }
  }

  lemma AddsUpFollows(c: Crypto, prev: StateRoot, next: StateRoot, w: ClaimWitness)
    requires w.claim.inputs.anchor.selectedPrice > 0 && AddsUp(c, prev, next, w)
    ensures Follows(c, prev, next, 0x11)
  {
    hide Follows, SameSettings, Tiered, RootAfterUpdate, ConsumedRoot, NullifierRoot, Computable, AmountSum, GrossSum,
      LockHashes, VerifyExclusion, DataOf;
  }

  lemma VerdictParts(c: Crypto, prev: StateRoot, next: StateRoot, w: ClaimWitness)
    ensures Verdict(c, prev, next, w) ==> w.claim.inputs.anchor.selectedPrice > 0
    ensures w.claim.inputs.anchor.selectedPrice > 0 ==>
      (Verdict(c, prev, next, w) <==>
        && Linked(c, prev, next, w) && AddsUp(c, prev, next, w)
        && forall k :: 0 <= k < |w.redemptions| ==>
             Passes(c, prev, w.claim.inputs.operatorId, w.claim.inputs.anchor.selectedPrice, w.tip, w.redemptions, k))
  {
    hide QuorumPrice, AddsUp, Passes;
  }

  /** The verifier accepts exactly the witnesses of which all of that holds. */
  lemma VerdictIff(c: Crypto, prev: StateRoot, next: StateRoot, w: ClaimWitness)
    ensures VerifyClaim(c, prev, next, w) == None <==> Verdict(c, prev, next, w)
  {
    hide *;
    var inputs, rs, price := w.claim.inputs, w.redemptions, w.claim.inputs.anchor.selectedPrice;
    var run := RunBatch(c, prev, inputs.operatorId, price, w.tip, rs, |rs|);
    VerifySteps(c, prev, next, w);
    VerdictParts(c, prev, next, w);
    if price > 0 {
      RunIff(c, prev, inputs.operatorId, price, w.tip, rs, |rs|);
      if run.Ok? { TotalsIff(c, prev, next, w, run.value); }
      if AddsUp(c, prev, next, w) { AddsUpFollows(c, prev, next, w); }
    } else if VerifyClaim(c, prev, next, w) == None {
      VerifyPrice(c, prev, next, w);
    }
  }
}
