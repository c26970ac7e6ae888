/** Two runs from genesis that show what the invariants exclude.

    The hashes and outside checks are as agreeable as they can be; only Poseidon is left
    arbitrary.  After one mint, one lock and one claim, swapping the custody makes a due
    reclaim report the internal error, and a paused custody keeps an approval that came with
    a refused payment. */
module NodeWitness {
  import opened Options
  import opened Modular
  import opened Bytes
  import opened Smt
  import opened Sorting
  import opened StateTypes
  import opened Aggregate
  import opened Transitions
  import opened Claim
  import opened Reserve
  import opened NodeModel
  import opened NodeInvariant
  import opened NodeClaim
  import opened NodeRuns
  import opened NodeEffects
  import opened NodeAccepts
  import opened NodeSubmits
  import opened Ledger

  function Agreeable(h: Hash): Crypto {
    Crypto(h, _ => 0, _ => 0, _ => 0, _ => 0, _ => 0, _ => 0, (_, _, _) => 0, _ => 0, _ => 0, (_, _, _) => 0,
           (_, _) => 0, (_, _) => 0,
           _ => 0, (_, _) => 0, _ => 0, (_, _, _) => 0, _ => 0, _ => 0, (_, _, _) => true, _ => true,
           (_, _, _) => None, (_, _, _, _) => None, (_, _, _, _) => None, (_, _, _, _, _, _) => None)
  }

  const PRICE: u64 := 10_000_000_000
  const DEPOSIT: u64 := 10_000_000
  const ATOMS: u64 := 100
  const REIMBURSED: u64 := 1_000_000

  const MEMBER: Key33 := 7
  const MEMBERS: Committee := Committee(1, [MEMBER])
  const APPROVAL: MultisigSig := MultisigSig(MEMBER, 0)

  const ISSUER: IssuerPosition := IssuerPosition(0, IssuerActive, [MEMBER], 1, 0, 0, 0, 0, None, None, 0, None)
  const REQUEST: MintRequest := MintRequest(ATOMS, 0, 0)
  const COMMITMENT: MintCommitWitness :=
    MintCommitWitness(0, REQUEST, DEPOSIT, [APPROVAL], PRICE, DepositConfirmation([]), MEMBERS)
  const FINALIZATION: MintFinalizeWitness := MintFinalizeWitness(0, REQUEST, 6, true, PRICE)

  const INTENT: RedeemIntent := RedeemIntent(0, 0, 0, 0, ATOMS, 0, 0, 0, Some(0), 0, 0, 24, 0, 0, 0, 0, 0, 0)
  const LOCK: LockRecord := LockRecord(0, 0, OutPoint(0, 0), 0, 0, ATOMS, 0, 0, 0, 0, [], 0)
  const REDEMPTION: Redemption :=
    Redemption(INTENT, LOCK, LockFinalize(0, 0, 0, OutPoint(0, 0), 0, 0, ATOMS, 0, 0, 0),
               PayoutConfirmation(REIMBURSED, 0, []), [])

  function Message(signer: Bytes32): OracleMessage {
    OracleMessage(0, 0, 0, 0, 3_600_000, 0, PRICE, 0, signer, 0)
  }

  const MESSAGES: seq<OracleMessage> := [Message(1), Message(2), Message(3)]
  const ANCHOR: ClaimClock := ClaimClock(0, 0, 0, 3600, [], 0, PRICE, 0, 0)
  const SUBMISSION: Submission := Submission([REDEMPTION], MESSAGES, [1, 2, 3], ANCHOR, 0, 10, 0)

  /** What the run so far has to say for itself. */
  predicate Stage(s: NodeState, supply: u64, reserve: u64, locked: bool) {
    && (if locked then 0 in s.lockTree else s.lockTree == map[])
    && s.state.assetFamilyId == 0 && s.state.oracleSetHash == 0 && s.state.oracleSetEpoch == 0 && s.state.anchorMtp == 0
    && s.state.reserveCommitteeHash == 0 && s.state.supply == supply && s.state.reserve == reserve
    && s.state.reservedPending == 0
    && s.claims == map[] && s.reserve.MultisigCustody? && s.reserve.multisig.committee == MEMBERS
    && s.consumedTree == map[] && s.refundTree == map[] && s.nullifierTree == map[]
  }

  /** The parts of a state root that only configuration changes. */
  predicate SameSetup(a: StateRoot, b: StateRoot) {
    && b.assetFamilyId == a.assetFamilyId && b.oracleSetHash == a.oracleSetHash && b.oracleSetEpoch == a.oracleSetEpoch
    && b.anchorMtp == a.anchorMtp && b.reserveCommitteeHash == a.reserveCommitteeHash
  }

  lemma RegisterSetup(c: Crypto, s: NodeState, p: IssuerPosition)
    requires DoIssuerRegister(c, s, p).1.Ok?
    ensures SameSetup(s.state, DoIssuerRegister(c, s, p).0.state) && DoIssuerRegister(c, s, p).0.reserve == s.reserve
  {
    hide RegisterIssuer, OwnProof, RootsMatch, RootAfterUpdate, Wrap64;
    RegisterIssuerMeans(c, s.state, p, OwnProof(c.poseidon2, s.issuerTree, p.issuerId));
  }

  lemma MintSetup(c: Crypto, s: NodeState, id: Bytes32, w: MintCommitWitness)
    requires DoMintCommit(c, s, id, w).1.Ok?
    ensures SameSetup(s.state, DoMintCommit(c, s, id, w).0.state)
      && DoMintCommit(c, s, id, w).0.reserve == CreditCustody(s.reserve, w.depositSats)
  {
    hide CommitMint, OwnProof, RootsMatch, RootAfterUpdate, IssuerAfterCommit, ReserveConsistent, CreditCustody;
    CommitMintMeans(c, s.state, s.issuers[id], OwnProof(c.poseidon2, s.issuerTree, id), w);
  }

  lemma FinalizeSetup(c: Crypto, s: NodeState, id: Bytes32, f: MintFinalizeWitness)
    requires DoMintFinalize(c, s, id, f).1.Ok?
    ensures SameSetup(s.state, DoMintFinalize(c, s, id, f).0.state)
      && DoMintFinalize(c, s, id, f).0.reserve == s.reserve
  {
    hide FinalizeMint, OwnProof, RootsMatch, RootAfterUpdate, IssuerAfterFinalize;
    FinalizeMintMeans(c, s.state, s.issuers[id], OwnProof(c.poseidon2, s.issuerTree, id), f);
  }

  lemma LockSetup(c: Crypto, s: NodeState, w: LockWitness)
    requires DoRedeemLock(c, s, w).1.Ok?
    ensures SameSetup(s.state, DoRedeemLock(c, s, w).0.state) && DoRedeemLock(c, s, w).0.reserve == s.reserve
  {
    hide ApplyLock, OwnProof, RootsMatch, RootAfterUpdate, Wrap64;
    ApplyLockMeans(c, s.state, w, OwnProof(c.poseidon2, s.lockTree, c.lockHash(w.lock)));
  }

  // --------------------------------------------------------------- step by step

  lemma OneSigner(h: Hash, msg: Bytes32)
    ensures |SignersOf(Agreeable(h), msg, [MEMBER], [APPROVAL])| == 1
  {
    assert SignersOf(Agreeable(h), msg, [MEMBER], [APPROVAL]) == {MEMBER} by {
      assert APPROVAL in [APPROVAL] && MEMBER in [MEMBER];
    }
  }

  lemma RatioFits(supply: u64)
    requires supply == 0 || supply == ATOMS
    ensures Computable(DEPOSIT, supply, PRICE) && Computable(DEPOSIT - REIMBURSED, 0, PRICE)
      && Covers(DEPOSIT, ATOMS, PRICE, MIN_MINT_CR_PPM)
  {
    ComputableIff(DEPOSIT, supply, PRICE);
    ComputableIff(DEPOSIT - REIMBURSED, 0, PRICE);
    hide Computable;
    assert DEPOSIT * PRICE * 1_000_000 == 100_000_000_000_000_000_000_000;
  }

  lemma Swapped(h: Hash)
    ensures var c := Agreeable(h);
      var s := DoUseMultisig(c, Genesis(c, 0, 0, 0, PRICE), MEMBERS);
      NodeInv(c, s) && Stage(s, 0, 0, false) && s.issuers == map[]
  {
    var c := Agreeable(h);
    var g := Genesis(c, 0, 0, 0, PRICE);
    GenesisInv(c, 0, 0, 0, PRICE);
    SwapKeepsIff(c, g, MEMBERS);
    hide TreeRoot, NodeInv;
  }

  lemma Registered(h: Hash, s: NodeState)
    requires NodeInv(Agreeable(h), s) && Stage(s, 0, 0, false) && s.issuers == map[]
    ensures var (t, r) := DoIssuerRegister(Agreeable(h), s, ISSUER);
      r.Ok? && NodeInv(Agreeable(h), t) && Stage(t, 0, 0, false) && t.issuers == map[0 := ISSUER]
  {
    var c := Agreeable(h);
    assert FreshIssuer(ISSUER);
    hide NodeInv, DoIssuerRegister, OwnProof, TreeRoot, VerifyExclusion, FreshIssuer;
    RegisterIff(c, s, ISSUER);
    RegisterEffect(c, s, ISSUER);
    RegisterSetup(c, s, ISSUER);
    IssuerRegisterKeeps(c, s, ISSUER);
  }

  lemma ReadyToCommit(h: Hash, s: NodeState)
    requires Stage(s, 0, 0, false) && s.issuers == map[0 := ISSUER]
    ensures Committable(Agreeable(h), s, 0, COMMITMENT)
  {
    OneSigner(h, 0);
    RatioFits(0);
    RatioFits(ATOMS);
    hide SignersOf, Computable, Covers;
  }

  lemma AfterCommit(h: Hash)
    ensures IssuerAfterCommit(Agreeable(h), ISSUER, COMMITMENT) ==
      Ok(ISSUER.(reserveDeposits := DEPOSIT, pendingMint := ATOMS, lastDeposit := Some(0),
                 pendingCommitment := Some(0)))
  {
  }

  lemma Committed(h: Hash, s: NodeState)
    requires NodeInv(Agreeable(h), s) && Stage(s, 0, 0, false) && s.issuers == map[0 := ISSUER]
    ensures var (t, r) := DoMintCommit(Agreeable(h), s, 0, COMMITMENT);
      r.Ok? && NodeInv(Agreeable(h), t) && Stage(t, 0, DEPOSIT, false)
      && t.issuers ==
        map[0 := ISSUER.(reserveDeposits := DEPOSIT, pendingMint := ATOMS, lastDeposit := Some(0),
                         pendingCommitment := Some(0))]
  {
    var c := Agreeable(h);
    hide NodeInv, DoMintCommit, Committable, IssuerAfterCommit;
    ReadyToCommit(h, s);
    AfterCommit(h);
    MintCommitIff(c, s, 0, COMMITMENT);
    MintCommitEffect(c, s, 0, COMMITMENT);
    MintSetup(c, s, 0, COMMITMENT);
    MintCommitKeeps(c, s, 0, COMMITMENT);
  }

  lemma Minted(h: Hash, s: NodeState)
    requires NodeInv(Agreeable(h), s) && Stage(s, 0, DEPOSIT, false)
    requires s.issuers ==
      map[0 := ISSUER.(reserveDeposits := DEPOSIT, pendingMint := ATOMS, lastDeposit := Some(0),
                       pendingCommitment := Some(0))]
    ensures var (t, r) := DoMintFinalize(Agreeable(h), s, 0, FINALIZATION);
      r.Ok? && NodeInv(Agreeable(h), t) && Stage(t, ATOMS, DEPOSIT, false)
  {
    var c := Agreeable(h);
    RatioFits(ATOMS);
    hide NodeInv, DoMintFinalize, Computable, Covers;
    assert Finalizable(c, s, 0, FINALIZATION);
    hide Finalizable;
    MintFinalizeIff(c, s, 0, FINALIZATION);
    MintFinalizeEffect(c, s, 0, FINALIZATION);
    FinalizeSetup(c, s, 0, FINALIZATION);
    MintFinalizeKeeps(c, s, 0, FINALIZATION);
  }

  const LOCKING: LockWitness := LockWitness(INTENT, LOCK, [])

  lemma Locked(h: Hash, s: NodeState)
    requires NodeInv(Agreeable(h), s) && Stage(s, ATOMS, DEPOSIT, false)
    ensures var (t, r) := DoRedeemLock(Agreeable(h), s, LOCKING);
      r.Ok? && NodeInv(Agreeable(h), t) && Stage(t, ATOMS, DEPOSIT, true)
  {
    var c := Agreeable(h);
    assert Bound(c, INTENT, LOCK, 0);
    hide NodeInv, DoRedeemLock, Bound, FalseAbsence;
    LockIff(c, s, LOCKING);
    LockEffect(c, s, LOCKING);
    LockSetup(c, s, LOCKING);
    RedeemLockKeeps(c, s, LOCKING);
  }

  // ------------------------------------------------------------------- the claim

  lemma {:induction false} AllInliers(prices: seq<int>)
    requires forall i :: 0 <= i < |prices| ==> prices[i] == PRICE
    ensures Total(prices, One(PRICE)) == |prices|
  {
    if |prices| > 0 { AllInliers(prices[..|prices| - 1]); }
  }

  lemma MessagesAdmitted(p: OracleParams)
    requires p == OracleParams(0, 0, 3600, 0, 0, [1, 2, 3])
    ensures AdmitFrom(MESSAGES, p, 0).None?
  {
    assert forall m :: m in MESSAGES ==> m == Message(1) || m == Message(2) || m == Message(3);
    assert forall m :: m in MESSAGES ==> Fine(m, p);
    AdmittedIff(MESSAGES, p);
    hide AdmitFrom, Fine;
  }

  lemma Price(h: Hash, s: NodeState)
    requires Stage(s, ATOMS, DEPOSIT, true)
    ensures QuorumPrice(Agreeable(h), s.state, 3600, ANCHOR, MESSAGES, [1, 2, 3]) == Ok(PRICE)
  {
    var c := Agreeable(h);
    MessagesAdmitted(OracleParams(0, 0, 3600, 0, 0, [1, 2, 3]));
    MedianIsPrice(MESSAGES);
    var prices, sorted := Prices(MESSAGES), SortBy(Prices(MESSAGES), itself);
    SortAscends(prices, itself);
    hide SortBy, AdmitFrom, Total, Ascending;
    forall i | 0 <= i < |sorted|
      ensures sorted[i] == PRICE
    {
      assert sorted[i] in multiset(sorted);
      assert sorted[i] in prices;
    }
    AllInliers(sorted);
    assert VerifySignatures(c, MESSAGES).None?;
  }

  lemma Affordable()
    ensures Gross(ATOMS, PRICE) == REIMBURSED && CheckPayout(REDEMPTION, PRICE).None?
  {
    DivIs(ATOMS * E14, PRICE);
    assert ATOMS * E14 / PRICE == REIMBURSED;
    PayoutIff(REDEMPTION, PRICE);
    hide CheckPayout;
  }

  lemma SingleSums(r: Redemption, price: pos)
    ensures AmountSum([r]) == r.intent.amount && GrossSum([r], price) == Gross(r.lock.amount, price)
  {
    assert [r][..0] == [];
    hide Gross;
  }

  lemma ReadyToSubmit(h: Hash, s: NodeState)
    requires Stage(s, ATOMS, DEPOSIT, true)
    ensures Submittable(Agreeable(h), s, SUBMISSION, PRICE)
  {
    var c, rs := Agreeable(h), SUBMISSION.redemptions;
    Price(h, s);
    Affordable();
    RatioFits(0);
    SingleSums(REDEMPTION, PRICE);
    assert rs == [REDEMPTION] && rs[..0] == [];
    assert Quoted(c, s, SUBMISSION, PRICE) by { hide QuorumPrice, Computable, AmountSum, GrossSum, Gross; }
    assert Settleable(c, 0, 0, PRICE, 0, REDEMPTION) by { hide CheckPayout; }
    assert Open(c, s, rs, 0);
    hide Quoted, Settleable, Open, ClaimIdOf;
  }

  /** The books after the claim. */
  predicate Claimed(s: NodeState, id: Bytes32) {
    && s.state.reserveCommitteeHash == 0 && s.state.supply == 0 && s.state.reserve == DEPOSIT
    && s.state.reservedPending == REIMBURSED
    && id in s.claims && s.claims[id].claimId == id && s.claims[id].status.Pending?
    && s.claims[id].reserved == REIMBURSED
    && s.claims[id].expiryHeight == 10
    && s.reserve.MultisigCustody? && s.reserve.multisig.committee == MEMBERS
    && id in s.reserve.multisig.pending && s.reserve.multisig.pending[id].approvals == []
  }

  lemma SumsOfOne()
    ensures AmountSum(SUBMISSION.redemptions) == ATOMS && GrossSum(SUBMISSION.redemptions, PRICE) == REIMBURSED
  {
    var rs := SUBMISSION.redemptions;
    Affordable();
    assert rs[..0] == [];
    hide Gross;
  }

  lemma OnePrice(h: Hash, s: NodeState, quote: u64)
    requires Stage(s, ATOMS, DEPOSIT, true) && Quoted(Agreeable(h), s, SUBMISSION, quote)
    ensures quote == PRICE
  {
    Price(h, s);
    QuotedIs(Agreeable(h), s, SUBMISSION, quote);
    hide QuorumPrice, Quoted;
  }

  lemma CommitteeStays(c: Crypto, s: NodeState, q: Submission)
    requires DoSubmitClaim(c, s, q).1.Ok?
    ensures DoSubmitClaim(c, s, q).0.state.reserveCommitteeHash == s.state.reserveCommitteeHash
  {
    hide *;
    var price, b, inputs, id, next := SubmitCases(c, s, q);
    BuildingQuote(c, s, q, price, b, inputs, id, next);
    BuildingNext(c, s, q, price, b, inputs, id, next);
    AcceptedView(c, s, inputs, id, b, next);
  }

  lemma BuildingNext(c: Crypto, s: NodeState, q: Submission, price: pos, b: Built, inputs: ClaimInputs, id: Bytes32,
                     next: StateRoot)
    requires Building(c, s, q, price, b, inputs, id, next)
    ensures next.reserveCommitteeHash == s.state.reserveCommitteeHash
  {
    Own(c.poseidon2, s.pendingTree, id);
    hide QuorumPrice, Fill, InputsFor, TreeRoot, OwnProof, RootAfterUpdate, CollateralRatio, Wrap64;
  }

  lemma Claims(h: Hash, s: NodeState) returns (id: Bytes32)
    requires NodeInv(Agreeable(h), s) && Stage(s, ATOMS, DEPOSIT, true)
    ensures var (t, r) := DoSubmitClaim(Agreeable(h), s, SUBMISSION);
      r.Ok? && NodeInv(Agreeable(h), t) && Claimed(t, id)
  {
    var c := Agreeable(h);
    ReadyToSubmit(h, s);
    SumsOfOne();
    hide NodeInv, DoSubmitClaim, Submittable, AmountSum, GrossSum, LockChecked, ConsumedAfter, NullifiedAfter,
      TreeRoot, OwnProof, VerifyExclusion, Quoted, SubmittedAt, Wrap64;
    SubmitIff(c, s, SUBMISSION);
    SubmitKeeps(c, s, SUBMISSION);
    CommitteeStays(c, s, SUBMISSION);
    var claim, quote := SubmitReserves(c, s, SUBMISSION);
    OnePrice(h, s, quote);
    id := claim.claimId;
  }

  // -------------------------------------------------------------------- the runs

  /** A mint, a lock and a claim, under a committee of one. */
  const OPS: seq<NodeOp> :=
    [UseMultisig(MEMBERS), IssuerRegister(ISSUER), MintCommit(0, COMMITMENT), MintFinalize(0, FINALIZATION),
     RedeemLock(LOCKING), SubmitClaim(SUBMISSION)]

  lemma RunStep(c: Crypto, s: NodeState, ops: seq<NodeOp>, op: NodeOp)
    ensures NodeRun(c, s, ops + [op]) == NodeStep(c, NodeRun(c, s, ops), op).0
  {
    assert (ops + [op])[..|ops|] == ops;
    hide NodeStep;
  }

  lemma RunOps(c: Crypto, s: NodeState)
    ensures NodeRun(c, s, OPS) ==
      (var registered := DoIssuerRegister(c, DoUseMultisig(c, s, MEMBERS), ISSUER).0;
       var minted := DoMintFinalize(c, DoMintCommit(c, registered, 0, COMMITMENT).0, 0, FINALIZATION).0;
       DoSubmitClaim(c, DoRedeemLock(c, minted, LOCKING).0, SUBMISSION).0)
  {
    assert OPS == [] + [OPS[0]] + [OPS[1]] + [OPS[2]] + [OPS[3]] + [OPS[4]] + [OPS[5]];
    assert NodeRun(c, s, []) == s;
    StepsAre(c);
    hide *;
    RunStep(c, s, [], OPS[0]);
    RunStep(c, s, [] + [OPS[0]], OPS[1]);
    RunStep(c, s, [] + [OPS[0]] + [OPS[1]], OPS[2]);
    RunStep(c, s, [] + [OPS[0]] + [OPS[1]] + [OPS[2]], OPS[3]);
    RunStep(c, s, [] + [OPS[0]] + [OPS[1]] + [OPS[2]] + [OPS[3]], OPS[4]);
    RunStep(c, s, [] + [OPS[0]] + [OPS[1]] + [OPS[2]] + [OPS[3]] + [OPS[4]], OPS[5]);
  }

  lemma StepsAre(c: Crypto)
    ensures forall s: NodeState :: NodeStep(c, s, OPS[0]).0 == DoUseMultisig(c, s, MEMBERS)
    ensures forall s: NodeState :: NodeStep(c, s, OPS[1]) == DoIssuerRegister(c, s, ISSUER)
    ensures forall s: NodeState :: NodeStep(c, s, OPS[2]) == DoMintCommit(c, s, 0, COMMITMENT)
    ensures forall s: NodeState :: NodeStep(c, s, OPS[3]) == DoMintFinalize(c, s, 0, FINALIZATION)
    ensures forall s: NodeState :: NodeStep(c, s, OPS[4]) == DoRedeemLock(c, s, LOCKING)
    ensures forall s: NodeState :: NodeStep(c, s, OPS[5]) == DoSubmitClaim(c, s, SUBMISSION)
  {
    hide DoIssuerRegister, DoMintCommit, DoMintFinalize, DoRedeemLock, DoSubmitClaim, DoUseMultisig;
  }

  /** The run reaches a pending claim. */
  lemma Reached(h: Hash) returns (id: Bytes32)
    ensures var c := Agreeable(h);
      var s := NodeRun(c, Genesis(c, 0, 0, 0, PRICE), OPS);
      NodeInv(c, s) && Claimed(s, id)
  {
    hide *;
    var c := Agreeable(h);
    RunOps(c, Genesis(c, 0, 0, 0, PRICE));
    Swapped(h);
    var s0 := DoUseMultisig(c, Genesis(c, 0, 0, 0, PRICE), MEMBERS);
    Registered(h, s0);
    var s1 := DoIssuerRegister(c, s0, ISSUER).0;
    Committed(h, s1);
    var s2 := DoMintCommit(c, s1, 0, COMMITMENT).0;
    Minted(h, s2);
    var s3 := DoMintFinalize(c, s2, 0, FINALIZATION).0;
    Locked(h, s3);
    id := Claims(h, DoRedeemLock(c, s3, LOCKING).0);
  }

  /** A run from genesis on which the node reports the error that "should never happen": the
      custody is swapped again while a claim is pending, and the claim is reclaimed when due. */
  lemma SwapWitness(h: Hash) returns (id: Bytes32)
    ensures var c := Agreeable(h);
      NodeStep(c, NodeRun(c, Genesis(c, 0, 0, 0, PRICE), OPS + [UseMultisig(MEMBERS)]), ReclaimClaim(id, 11)).1 ==
        Err(InvariantViolation)
  {
    var c := Agreeable(h);
    id := Reached(h);
    var s := NodeRun(c, Genesis(c, 0, 0, 0, PRICE), OPS);
    ClaimedIs(s, id);
    SwapStep(c, s, id);
    hide *;
    RunStep(c, Genesis(c, 0, 0, 0, PRICE), OPS, UseMultisig(MEMBERS));
    SwapBreaksReclaim(c, s, MEMBERS, id, 11);
  }

  lemma ClaimedIs(s: NodeState, id: Bytes32)
    requires Claimed(s, id)
    ensures id in s.claims && s.claims[id].status.Pending? && 11 > s.claims[id].expiryHeight
      && s.claims[id].reserved <= s.state.reservedPending
  {
  }

  lemma SwapStep(c: Crypto, s: NodeState, id: Bytes32)
    ensures NodeStep(c, s, UseMultisig(MEMBERS)).0 == DoUseMultisig(c, s, MEMBERS)
    ensures forall t: NodeState :: NodeStep(c, t, ReclaimClaim(id, 11)) == DoReclaim(c, t, id, 11)
  {
    hide DoUseMultisig, DoReclaim;
  }

  /** A custody paused by hand. */
  function PausedState(s: NodeState): NodeState {
    DoPause(s, Some(Manual))
  }

  lemma PausedParts(h: Hash, s: NodeState, id: Bytes32)
    requires NodeInv(Agreeable(h), s) && Claimed(s, id)
    ensures var t := PausedState(s);
      NodeInv(Agreeable(h), t) && Claimed(t, id) && t.reserve.multisig.paused == Some(Manual)
  {
    PauseKeeps(Agreeable(h), s, Some(Manual));
    hide NodeInv;
  }

  lemma ReadyToPay(h: Hash, s: NodeState, id: Bytes32)
    requires NodeInv(Agreeable(h), s) && Claimed(s, id)
    ensures id in s.claims
    ensures FinalizeClaim(Agreeable(h), s.state, s.claims[id], OwnProof(h, s.pendingTree, id), MEMBERS, [APPROVAL],
                          0).Ok?
  {
    var c := Agreeable(h);
    OneSigner(h, id);
    RatioFits(0);
    assert CommitteeHash(c, MEMBERS) == 0;
    hide NodeInv, FinalizeClaim, OwnProof, VerifyInclusion, SignersOf, Computable, CommitteeHash;
    OwnClaim(c, s, id);
    assert Computable(s.state.reserve - s.claims[id].reserved, s.state.supply, s.state.latestPrice) by {
      NoSupplyComputable(s.state.reserve - REIMBURSED, s.state.latestPrice);
    }
    FinalizeClaimIff(c, s.state, s.claims[id], OwnProof(h, s.pendingTree, id), MEMBERS, [APPROVAL], 0);
  }

  lemma NoSupplyComputable(reserve: u64, price: u64)
    ensures Computable(reserve, 0, price)
  {
  }

  lemma NewApproval(h: Hash, s: NodeState, id: Bytes32)
    requires Claimed(s, id)
    ensures !Ignored(Agreeable(h), s.reserve.multisig, id, APPROVAL)
  {
  }

  /** A run from genesis on which a refused payment changes the node: the custody is paused,
      refuses, and keeps the approval that came with the call. */
  lemma ApprovalWitness(h: Hash) returns (id: Bytes32)
    ensures var c := Agreeable(h);
      var s := NodeRun(c, Genesis(c, 0, 0, 0, PRICE), OPS + [PauseReserve(Manual)]);
      NodeStep(c, s, FinalizeOp(id, MEMBERS, [APPROVAL], 0)).1 == Err(ReserveRefused(Paused))
      && NodeStep(c, s, FinalizeOp(id, MEMBERS, [APPROVAL], 0)).0 != s
  {
    hide *;
    var c := Agreeable(h);
    id := Reached(h);
    var s := NodeRun(c, Genesis(c, 0, 0, 0, PRICE), OPS);
    var t := PausedState(s);
    PausedParts(h, s, id);
    RunStep(c, Genesis(c, 0, 0, 0, PRICE), OPS, PauseReserve(Manual));
    PauseStep(c, s, id);
    StayedApproval(h, t, id);
  }

  lemma PauseStep(c: Crypto, s: NodeState, id: Bytes32)
    ensures NodeStep(c, s, PauseReserve(Manual)).0 == PausedState(s)
    ensures forall t: NodeState ::
      NodeStep(c, t, FinalizeOp(id, MEMBERS, [APPROVAL], 0)) == DoFinalize(c, t, id, MEMBERS, [APPROVAL], 0)
  {
    hide DoPause, DoFinalize;
  }

  lemma StayedApproval(h: Hash, t: NodeState, id: Bytes32)
    requires NodeInv(Agreeable(h), t) && Claimed(t, id) && t.reserve.multisig.paused == Some(Manual)
    ensures DoFinalize(Agreeable(h), t, id, MEMBERS, [APPROVAL], 0).1 == Err(ReserveRefused(Paused))
    ensures DoFinalize(Agreeable(h), t, id, MEMBERS, [APPROVAL], 0).0 != t
  {
    ReadyToPay(h, t, id);
    NewApproval(h, t, id);
    hide NodeInv, DoFinalize, FinalizeClaim, OwnProof, Ignored;
    RefusedApprovalStays(Agreeable(h), t, id, MEMBERS, APPROVAL, 0);
  }
}
