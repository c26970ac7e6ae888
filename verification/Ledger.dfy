/** The books of a whole run: what was deposited, paid out, minted and redeemed, which locks
    were redeemed, and how the node's state answers for all of it.

    The money balances in every run.  The per-record accounts and the life cycle of locks
    rest on the trees' exclusion and inclusion checks, so for them a run either keeps the
    books or contains a step at which one of the node's own trees exhibits two inputs with
    the same Poseidon hash (or an input that hashes to zero), or two mint requests have the
    same commitment. */
module Ledger {
  import opened Options
  import opened Bytes
  import opened Smt
  import opened StateTypes
  import opened Transitions
  import opened Claim
  import opened Reserve
  import opened NodeModel
  import opened NodeInvariant
  import opened NodeRuns
  import opened NodeEffects
  import opened Totals

  datatype Entry = Entry(lockHash: Bytes32, nullifier: Bytes32, lock: LockRecord)

  datatype Books = Books(
    deposits: nat, payouts: nat, minted: nat, redeemed: nat, log: seq<Entry>, requests: map<Bytes32, MintRequest>)

  const OPENING: Books := Books(0, 0, 0, 0, [], map[])

  function EntryOf(c: Crypto, d: Redemption): Entry {
    Entry(c.lockHash(d.lock), NullifierOf(c, d.lock), d.lock)
  }

  function LogAfter(c: Crypto, log: seq<Entry>, rs: seq<Redemption>, k: nat): seq<Entry>
    requires k <= |rs|
  {
    if k == 0 then log else LogAfter(c, log, rs, k - 1) + [EntryOf(c, rs[k - 1])]
  }

  /** What an accepted call adds to the books. */
  function Booked(c: Crypto, s: NodeState, g: Books, op: NodeOp): Books {
    match op
    case MintCommit(id, w) => g.(deposits := g.deposits + w.depositSats, requests := g.requests[id := w.request])
    case MintFinalize(_, w) => g.(minted := g.minted + w.request.atoms)
    case SubmitClaim(q) => g.(redeemed := g.redeemed + AmountSum(q.redemptions),
                              log := LogAfter(c, g.log, q.redemptions, |q.redemptions|))
    case FinalizeOp(id, _, _, _) => g.(payouts := g.payouts + if id in s.claims then s.claims[id].reserved else 0)
    case _ => g
  }

  function BooksStep(c: Crypto, s: NodeState, g: Books, op: NodeOp): Books {
    if NodeStep(c, s, op).1.Ok? then Booked(c, s, g, op) else g
  }

  function BooksRun(c: Crypto, s: NodeState, ops: seq<NodeOp>): Books {
    if |ops| == 0 then OPENING else
    BooksStep(c, NodeRun(c, s, ops[..|ops| - 1]), BooksRun(c, s, ops[..|ops| - 1]), ops[|ops| - 1])
  }

  // ------------------------------------------------------------------- the accounts

  /** Reserve is deposits less payouts, supply is minted less redeemed. */
  predicate Balanced(s: StateRoot, g: Books) {
    s.reserve + g.payouts == g.deposits && s.supply + g.redeemed == g.minted
  }

  function PendingAmount(p: PendingClaim): nat {
    if p.status.Pending? then p.reserved else 0
  }

  function PendingAmounts(claims: map<Bytes32, PendingClaim>): map<Bytes32, nat> {
    map id | id in claims :: PendingAmount(claims[id])
  }

  function MintedAmounts(issuers: map<Bytes32, IssuerPosition>): map<Bytes32, nat> {
    map id | id in issuers :: issuers[id].minted
  }

  function DepositAmounts(issuers: map<Bytes32, IssuerPosition>): map<Bytes32, nat> {
    map id | id in issuers :: issuers[id].reserveDeposits
  }

  /** A mint is outstanding exactly when its atoms are. */
  predicate IssuerSettled(c: Crypto, p: IssuerPosition, requests: map<Bytes32, MintRequest>) {
    match p.pendingCommitment
    case None => p.pendingMint == 0
    case Some(h) =>
      && p.issuerId in requests && h == c.mintCommitment(requests[p.issuerId])
      && p.pendingMint == requests[p.issuerId].atoms > 0
  }

  ghost predicate IssuersSettled(c: Crypto, issuers: map<Bytes32, IssuerPosition>, g: Books) {
    && (forall id :: id in issuers ==> IssuerSettled(c, issuers[id], g.requests))
    && Total(MintedAmounts(issuers)) == g.minted && Total(DepositAmounts(issuers)) == g.deposits
  }

  ghost predicate ClaimsSettled(claims: map<Bytes32, PendingClaim>, reservedPending: u64) {
    Total(PendingAmounts(claims)) == reservedPending
  }

  function LogAmount(log: seq<Entry>): nat {
    if |log| == 0 then 0 else LogAmount(log[..|log| - 1]) + log[|log| - 1].lock.amount
  }

  /** The log has one entry for every consumed lock and for every nullifier, and no other:
      taking the last entry away takes its lock and its nullifier away. */
  predicate LogOf(c: Crypto, log: seq<Entry>, consumed: set<Bytes32>, nullified: set<Bytes32>) {
    if |log| == 0 then consumed == {} && nullified == {} else
    var e := log[|log| - 1];
    && e == Entry(c.lockHash(e.lock), NullifierOf(c, e.lock), e.lock)
    && e.lockHash in consumed && e.nullifier in nullified
    && LogOf(c, log[..|log| - 1], consumed - {e.lockHash}, nullified - {e.nullifier})
  }

  /** Consumed and refunded are disjoint parts of the recorded locks. */
  ghost predicate LocksSettled(c: Crypto, locks: Values, consumed: Values, refunded: Values, nullified: Values,
                               log: seq<Entry>) {
    && consumed.Keys <= locks.Keys && refunded.Keys <= locks.Keys && consumed.Keys !! refunded.Keys
    && LogOf(c, log, consumed.Keys, nullified.Keys)
  }

  ghost predicate Settled(c: Crypto, s: NodeState, g: Books) {
    && IssuersSettled(c, s.issuers, g)
    && ClaimsSettled(s.claims, s.state.reservedPending)
    && LocksSettled(c, s.lockTree, s.consumedTree, s.refundTree, s.nullifierTree, g.log)
    && LogAmount(g.log) == g.redeemed
  }

  // ------------------------------------------------------------------- collisions

  /** A tree proves that a key is absent although it stores it. */
  ghost predicate FalseAbsence(h: Hash, vs: Values, key: Bytes32) {
    key in vs && (PathCollision(h, LeavesOf(h, vs), key, 0, OwnProof(h, vs, key)) || LeafHash(h, key, vs[key]) == 0)
  }

  /** A tree proves that a key is a member although it does not store it. */
  ghost predicate FalsePresence(h: Hash, vs: Values, key: Bytes32) {
    key !in vs && (PathCollision(h, LeavesOf(h, vs), key, LeafHash(h, key, SET_MEMBER), OwnProof(h, vs, key))
                   || LeafHash(h, key, SET_MEMBER) == 0)
  }

  lemma AbsentOr(h: Hash, vs: Values, key: Bytes32)
    requires VerifyExclusion(h, TreeRoot(h, vs), key, OwnProof(h, vs, key))
    ensures key !in vs || FalseAbsence(h, vs, key)
  {
    hide *;
    ExclusionSound(h, vs, key, OwnProof(h, vs, key));
    FalseAbsenceIs(h, vs, key);
  }

  lemma FalseAbsenceIs(h: Hash, vs: Values, key: Bytes32)
    ensures FalseAbsence(h, vs, key) <==>
      key in vs && (PathCollision(h, LeavesOf(h, vs), key, 0, OwnProof(h, vs, key)) || LeafHash(h, key, vs[key]) == 0)
  {
    hide PathCollision, LeafHash, OwnProof, LeavesOf;
  }

  lemma PresentOr(h: Hash, vs: Values, key: Bytes32)
    requires VerifyInclusion(h, TreeRoot(h, vs), key, SET_MEMBER, OwnProof(h, vs, key)) && OnlySetMembers(vs)
    ensures key in vs || FalsePresence(h, vs, key)
  {
    hide *;
    InclusionSound(h, vs, key, SET_MEMBER, OwnProof(h, vs, key));
    FalsePresenceIs(h, vs, key);
  }

  lemma FalsePresenceIs(h: Hash, vs: Values, key: Bytes32)
    ensures FalsePresence(h, vs, key) <==>
      key !in vs && (PathCollision(h, LeavesOf(h, vs), key, LeafHash(h, key, SET_MEMBER), OwnProof(h, vs, key))
                     || LeafHash(h, key, SET_MEMBER) == 0)
  {
    hide PathCollision, LeafHash, OwnProof, LeavesOf;
  }

  /** One of the four checks of redemption `k` was answered wrongly. */
  ghost predicate RedemptionCollides(c: Crypto, s: NodeState, rs: seq<Redemption>, k: nat)
    requires k < |rs|
  {
    var h, id := c.poseidon2, c.lockHash(rs[k].lock);
    || FalsePresence(h, s.lockTree, id)
    || FalseAbsence(h, ConsumedAfter(c, s.consumedTree, rs, k), id)
    || FalseAbsence(h, s.refundTree, id)
    || FalseAbsence(h, NullifiedAfter(c, s.nullifierTree, rs, k), NullifierOf(c, rs[k].lock))
  }

  ghost predicate BatchCollides(c: Crypto, s: NodeState, rs: seq<Redemption>) {
    exists k :: 0 <= k < |rs| && RedemptionCollides(c, s, rs, k)
  }

  ghost predicate StepCollides(c: Crypto, s: NodeState, g: Books, op: NodeOp) {
    var h := c.poseidon2;
    match op
    case IssuerRegister(p) => FalseAbsence(h, s.issuerTree, p.issuerId)
    case MintFinalize(id, w) => id in g.requests && g.requests[id] != w.request
      && c.mintCommitment(g.requests[id]) == c.mintCommitment(w.request)
    case LockRefund(w) => FalsePresence(h, s.lockTree, c.lockHash(w.lock))
      || FalseAbsence(h, s.consumedTree, c.lockHash(w.lock))
    case SubmitClaim(q) => BatchCollides(c, s, q.redemptions)
      || (var r := DoSubmitClaim(c, s, q).1; r.Ok? && FalseAbsence(h, s.pendingTree, r.value))
    case _ => false
  }

  ghost predicate RunCollides(c: Crypto, s: NodeState, ops: seq<NodeOp>) {
    |ops| > 0 && var init := ops[..|ops| - 1];
    RunCollides(c, s, init) || StepCollides(c, NodeRun(c, s, init), BooksRun(c, s, init), ops[|ops| - 1])
  }

  // ------------------------------------------------------------- single accounts

  lemma OpenIssuer(c: Crypto, issuers: map<Bytes32, IssuerPosition>, g: Books, p: IssuerPosition)
    requires IssuersSettled(c, issuers, g) && p.issuerId !in issuers
    requires p.minted == p.pendingMint == p.reserveDeposits == 0 && p.pendingCommitment.None?
    ensures IssuersSettled(c, issuers[p.issuerId := p], g)
  {
    hide Total;
    var issuers' := issuers[p.issuerId := p];
    assert MintedAmounts(issuers') == MintedAmounts(issuers)[p.issuerId := 0];
    assert DepositAmounts(issuers') == DepositAmounts(issuers)[p.issuerId := 0];
    TotalUpdate(MintedAmounts(issuers), p.issuerId, 0);
    TotalUpdate(DepositAmounts(issuers), p.issuerId, 0);
  }

  lemma IssuerCommits(c: Crypto, issuers: map<Bytes32, IssuerPosition>, g: Books, id: Bytes32, w: MintCommitWitness)
    requires IssuersSettled(c, issuers, g) && id in issuers && issuers[id].issuerId == id && w.request.atoms > 0
    requires forall k :: k in issuers ==> issuers[k].issuerId == k
    requires issuers[id].pendingCommitment.None? && IssuerAfterCommit(c, issuers[id], w).Ok?
    ensures IssuersSettled(c, issuers[id := IssuerAfterCommit(c, issuers[id], w).value],
                           g.(deposits := g.deposits + w.depositSats, requests := g.requests[id := w.request]))
  {
    var p := IssuerAfterCommit(c, issuers[id], w).value;
    var issuers' := issuers[id := p];
    assert MintedAmounts(issuers') == MintedAmounts(issuers)[id := p.minted];
    assert DepositAmounts(issuers') == DepositAmounts(issuers)[id := p.reserveDeposits];
    hide Total;
    TotalUpdate(MintedAmounts(issuers), id, p.minted);
    TotalUpdate(DepositAmounts(issuers), id, p.reserveDeposits);
  }

  lemma IssuerFinalizes(c: Crypto, issuers: map<Bytes32, IssuerPosition>, g: Books, id: Bytes32, request: MintRequest)
    requires IssuersSettled(c, issuers, g) && id in issuers && issuers[id].issuerId == id
    requires issuers[id].pendingCommitment == Some(c.mintCommitment(request))
      && IssuerAfterFinalize(issuers[id], request.atoms).Ok?
    ensures
      || IssuersSettled(c, issuers[id := IssuerAfterFinalize(issuers[id], request.atoms).value],
                        g.(minted := g.minted + request.atoms))
      || (id in g.requests && g.requests[id] != request
          && c.mintCommitment(g.requests[id]) == c.mintCommitment(request))
  {
    var p := IssuerAfterFinalize(issuers[id], request.atoms).value;
    var issuers' := issuers[id := p];
    assert IssuerSettled(c, issuers[id], g.requests);
    assert MintedAmounts(issuers') == MintedAmounts(issuers)[id := p.minted];
    assert DepositAmounts(issuers') == DepositAmounts(issuers)[id := p.reserveDeposits];
    hide Total;
    TotalUpdate(MintedAmounts(issuers), id, p.minted);
    TotalUpdate(DepositAmounts(issuers), id, p.reserveDeposits);
  }

  lemma OpenClaim(claims: map<Bytes32, PendingClaim>, reserved: u64, reserved': u64, p: PendingClaim)
    requires ClaimsSettled(claims, reserved) && p.claimId !in claims && p.status.Pending?
      && reserved' == reserved + p.reserved
    ensures ClaimsSettled(claims[p.claimId := p], reserved')
  {
    assert PendingAmounts(claims[p.claimId := p]) == PendingAmounts(claims)[p.claimId := p.reserved];
    hide Total;
    TotalUpdate(PendingAmounts(claims), p.claimId, p.reserved);
  }

  lemma CloseClaim(claims: map<Bytes32, PendingClaim>, reserved: u64, reserved': u64, id: Bytes32, status: ClaimStatus)
    requires ClaimsSettled(claims, reserved) && id in claims && claims[id].status.Pending? && !status.Pending?
    requires reserved' == reserved - claims[id].reserved
    ensures ClaimsSettled(claims[id := claims[id].(status := status)], reserved')
  {
    assert PendingAmounts(claims[id := claims[id].(status := status)]) == PendingAmounts(claims)[id := 0];
    hide Total;
    TotalUpdate(PendingAmounts(claims), id, 0);
  }

  /** With the books settled, the documented condition for swapping custody (no pending
      claim) already means that nothing is reserved. */
  lemma NothingReserved(c: Crypto, s: NodeState, g: Books)
    requires Settled(c, s, g) && NoPending(s.claims)
    ensures s.state.reservedPending == 0
  {
    hide Total, IssuersSettled, LocksSettled;
    TotalZero(PendingAmounts(s.claims));
  }

  lemma LockRecorded(c: Crypto, locks: Values, consumed: Values, refunded: Values, nullified: Values, log: seq<Entry>,
                     id: Bytes32)
    requires LocksSettled(c, locks, consumed, refunded, nullified, log)
    ensures LocksSettled(c, locks[id := SET_MEMBER], consumed, refunded, nullified, log)
  {
    hide LogOf;
  }

  lemma LockRefunds(c: Crypto, locks: Values, consumed: Values, refunded: Values, nullified: Values, log: seq<Entry>,
                    id: Bytes32)
    requires LocksSettled(c, locks, consumed, refunded, nullified, log) && id in locks && id !in consumed
    ensures LocksSettled(c, locks, consumed, refunded[id := SET_MEMBER], nullified, log)
  {
    hide LogOf;
  }

  lemma LogGrows(c: Crypto, log: seq<Entry>, consumed: set<Bytes32>, nullified: set<Bytes32>, d: Redemption)
    requires LogOf(c, log, consumed, nullified) && c.lockHash(d.lock) !in consumed
      && NullifierOf(c, d.lock) !in nullified
    ensures LogOf(c, log + [EntryOf(c, d)], consumed + {c.lockHash(d.lock)}, nullified + {NullifierOf(c, d.lock)})
  {
    hide NullifierOf;
    var e := EntryOf(c, d);
    assert (log + [e])[..|log|] == log;
    assert consumed + {e.lockHash} - {e.lockHash} == consumed && nullified + {e.nullifier} - {e.nullifier} == nullified;
  }

  lemma {:induction false} LogEntry(c: Crypto, log: seq<Entry>, consumed: set<Bytes32>, nullified: set<Bytes32>, i: nat)
    requires LogOf(c, log, consumed, nullified) && i < |log|
    ensures log[i] == Entry(c.lockHash(log[i].lock), NullifierOf(c, log[i].lock), log[i].lock)
    ensures log[i].lockHash in consumed && log[i].nullifier in nullified
  {
    hide NullifierOf;
    var n := |log| - 1;
    if i < n { LogEntry(c, log[..n], consumed - {log[n].lockHash}, nullified - {log[n].nullifier}, i); }
  }

  /** No lock and no nullifier is in the log twice. */
  lemma {:induction false} LogDistinct(c: Crypto, log: seq<Entry>, consumed: set<Bytes32>, nullified: set<Bytes32>,
                                       i: nat, j: nat)
    requires LogOf(c, log, consumed, nullified) && i < j < |log|
    ensures log[i].lockHash != log[j].lockHash && log[i].nullifier != log[j].nullifier
  {
    hide NullifierOf;
    var n := |log| - 1;
    var consumed', nullified' := consumed - {log[n].lockHash}, nullified - {log[n].nullifier};
    if j < n {
      LogDistinct(c, log[..n], consumed', nullified', i, j);
    } else {
      LogEntry(c, log[..n], consumed', nullified', i);
    }
  }

  lemma {:induction false} LogCovers(c: Crypto, log: seq<Entry>, consumed: set<Bytes32>, nullified: set<Bytes32>,
                                     id: Bytes32) returns (i: nat)
    requires LogOf(c, log, consumed, nullified) && id in consumed
    ensures i < |log| && log[i].lockHash == id
  {
    hide NullifierOf;
    i := |log| - 1;
    if log[i].lockHash != id {
      var n := i;
      assert id in consumed - {log[n].lockHash};
      i := LogCovers(c, log[..n], consumed - {log[n].lockHash}, nullified - {log[n].nullifier}, id);
    }
  }

  lemma LockConsumes(c: Crypto, locks: Values, consumed: Values, refunded: Values, nullified: Values, log: seq<Entry>,
                     d: Redemption)
    requires LocksSettled(c, locks, consumed, refunded, nullified, log)
    requires var id := c.lockHash(d.lock);
      id in locks && id !in consumed && id !in refunded && NullifierOf(c, d.lock) !in nullified
    ensures LocksSettled(c, locks, consumed[c.lockHash(d.lock) := SET_MEMBER], refunded,
                         nullified[NullifierOf(c, d.lock) := SET_MEMBER], log + [EntryOf(c, d)])
  {
    LogGrows(c, log, consumed.Keys, nullified.Keys, d);
    hide LogOf, NullifierOf;
    assert consumed[c.lockHash(d.lock) := SET_MEMBER].Keys == consumed.Keys + {c.lockHash(d.lock)};
    assert nullified[NullifierOf(c, d.lock) := SET_MEMBER].Keys == nullified.Keys + {NullifierOf(c, d.lock)};
  }

  /** A checked redemption finds its lock recorded, unspent and unrefunded, and its
      nullifier fresh, or a tree collided. */
  lemma CheckedOr(c: Crypto, s: NodeState, rs: seq<Redemption>, k: nat)
    requires k < |rs| && LockChecked(c, s, rs, k) && OnlySetMembers(s.lockTree)
    ensures
      || RedemptionCollides(c, s, rs, k)
      || var id := c.lockHash(rs[k].lock);
         && id in s.lockTree && id !in ConsumedAfter(c, s.consumedTree, rs, k) && id !in s.refundTree
         && NullifierOf(c, rs[k].lock) !in NullifiedAfter(c, s.nullifierTree, rs, k)
  {
    hide TreeRoot, OwnProof, VerifyInclusion, VerifyExclusion, NullifierOf, FalsePresence, FalseAbsence, ConsumedAfter,
      NullifiedAfter, OnlySetMembers;
    var h, id := c.poseidon2, c.lockHash(rs[k].lock);
    PresentOr(h, s.lockTree, id);
    AbsentOr(h, ConsumedAfter(c, s.consumedTree, rs, k), id);
    AbsentOr(h, s.refundTree, id);
    AbsentOr(h, NullifiedAfter(c, s.nullifierTree, rs, k), NullifierOf(c, rs[k].lock));
  }

  /** A whole batch consumes its locks one by one, against its own earlier redemptions. */
  lemma {:induction false} BatchConsumes(c: Crypto, s: NodeState, log: seq<Entry>, rs: seq<Redemption>, k: nat)
    requires k <= |rs| && OnlySetMembers(s.lockTree) && !BatchCollides(c, s, rs)
    requires forall i :: 0 <= i < |rs| ==> LockChecked(c, s, rs, i)
    requires LocksSettled(c, s.lockTree, s.consumedTree, s.refundTree, s.nullifierTree, log)
    ensures LocksSettled(c, s.lockTree, ConsumedAfter(c, s.consumedTree, rs, k), s.refundTree,
                         NullifiedAfter(c, s.nullifierTree, rs, k), LogAfter(c, log, rs, k))
    ensures LogAmount(LogAfter(c, log, rs, k)) == LogAmount(log) + AmountSum(rs[..k])
  {
    if k > 0 {
      hide LocksSettled, LockChecked, RedemptionCollides, NullifierOf, OnlySetMembers;
      BatchConsumes(c, s, log, rs, k - 1);
      CheckedOr(c, s, rs, k - 1);
      LockConsumes(c, s.lockTree, ConsumedAfter(c, s.consumedTree, rs, k - 1), s.refundTree,
                   NullifiedAfter(c, s.nullifierTree, rs, k - 1),
                   LogAfter(c, log, rs, k - 1), rs[k - 1]);
      AmountStep(rs, k);
      CheckedAmount(c, s, rs, k - 1);
      LogAmountStep(LogAfter(c, log, rs, k - 1), EntryOf(c, rs[k - 1]));
    }
  }

  lemma CheckedAmount(c: Crypto, s: NodeState, rs: seq<Redemption>, k: nat)
    requires k < |rs| && LockChecked(c, s, rs, k)
    ensures rs[k].lock.amount == rs[k].intent.amount
  {
    hide TreeRoot, OwnProof, VerifyInclusion, VerifyExclusion, NullifierOf, ConsumedAfter, NullifiedAfter;
  }

  lemma LogAmountStep(log: seq<Entry>, e: Entry)
    ensures LogAmount(log + [e]) == LogAmount(log) + e.lock.amount
  {
    assert (log + [e])[..|log|] == log;
  }

  // ------------------------------------------------------------------ single steps

  predicate IsConfig(op: NodeOp) {
    op.SetAnchor? || op.SetCommittee? || op.UseMultisig? || op.RotateCommittee? || op.PauseReserve?
      || op.ResumeReserve? || op.VetoClaim?
  }

  lemma ConfigEffect(c: Crypto, s: NodeState, g: Books, op: NodeOp)
    requires IsConfig(op)
    ensures var s' := NodeStep(c, s, op).0;
      SameLocks(s, s') && SameClaims(s, s') && SameMoney(s, s') && s'.issuers == s.issuers
        && BooksStep(c, s, g, op) == g
  {
    hide NodeStep, BooksStep;
    ConfigBooks(c, s, g, op);
    ConfigShape(c, s, op);
  }

  /** The money of a state, with everything but its root and custody fixed. */
  predicate Reshaped(s: NodeState, s': NodeState) {
    && s' == s.(state := s'.state, reserve := s'.reserve)
    && s'.state.reserve == s.state.reserve && s'.state.supply == s.state.supply
    && s'.state.reservedPending == s.state.reservedPending
  }

  lemma CustodyReshaped(s: NodeState, paused: Option<PauseReason>, id: Bytes32)
    ensures Reshaped(s, DoPause(s, paused)) && Reshaped(s, DoVeto(s, id).0)
  {
    hide VetoCustody;
  }

  lemma CommitteeReshaped(c: Crypto, s: NodeState, committee: Committee)
    ensures Reshaped(s, DoUseMultisig(c, s, committee)) && Reshaped(s, DoRotate(c, s, committee))
  {
    hide CommitteeHash;
  }

  lemma RootReshaped(s: NodeState, height: u32, hash: Bytes32, mtp: u64)
    ensures Reshaped(s, DoSetAnchor(s, height, hash, mtp))
      && Reshaped(s, s.(state := s.state.(reserveCommitteeHash := hash)))
  {
    hide Wrap64;
  }

  lemma ConfigShape(c: Crypto, s: NodeState, op: NodeOp)
    requires IsConfig(op)
    ensures Reshaped(s, NodeStep(c, s, op).0)
  {
    hide Reshaped, DoIssuerRegister, DoOperatorRegister, DoMintCommit, DoMintFinalize, DoRedeemLock, DoLockRefund,
      DoSubmitClaim,
      DoReclaim, DoFinalize, DoUseMultisig, DoRotate, DoPause, DoVeto, DoSetAnchor;
    match op
    case UseMultisig(committee) => CommitteeReshaped(c, s, committee);
    case RotateCommittee(committee) => CommitteeReshaped(c, s, committee);
    case PauseReserve(reason) => CustodyReshaped(s, Some(reason), 0);
    case ResumeReserve => CustodyReshaped(s, None, 0);
    case VetoClaim(id) => CustodyReshaped(s, None, id);
    case SetAnchor(height, hash, mtp) => RootReshaped(s, height, hash, mtp);
    case SetCommittee(hash) => RootReshaped(s, 0, hash, 0);
  }

  lemma ConfigBooks(c: Crypto, s: NodeState, g: Books, op: NodeOp)
    requires IsConfig(op)
    ensures BooksStep(c, s, g, op) == g
  {
    hide NodeStep;
  }

  lemma RefusedEffect(c: Crypto, s: NodeState, g: Books, op: NodeOp)
    requires NodeInv(c, s) && SwapAllowed(s, op) && NodeStep(c, s, op).1.Err?
    ensures var s' := NodeStep(c, s, op).0;
      SameLocks(s, s') && SameClaims(s, s') && SameMoney(s, s') && s'.issuers == s.issuers
        && BooksStep(c, s, g, op) == g
  {
    hide NodeStep, NodeInv, SwapAllowed, ViewOf;
    StepKeeps(c, s, op);
  }

  /** Steps that leave all accounts alone. */
  lemma QuietSettles(c: Crypto, s: NodeState, s': NodeState, g: Books)
    requires SameLocks(s, s') && SameClaims(s, s') && SameMoney(s, s') && s'.issuers == s.issuers
    ensures Balanced(s.state, g) ==> Balanced(s'.state, g)
    ensures Settled(c, s, g) ==> Settled(c, s', g)
  {
    hide IssuersSettled, ClaimsSettled, LocksSettled, LogAmount;
  }

  /** One accepted or refused call keeps the money balanced. */
  lemma StepBalances(c: Crypto, s: NodeState, g: Books, op: NodeOp)
    requires NodeInv(c, s) && SwapAllowed(s, op) && Balanced(s.state, g)
    ensures Balanced(NodeStep(c, s, op).0.state, BooksStep(c, s, g, op))
  {
    hide NodeInv, SwapAllowed, DoIssuerRegister, DoOperatorRegister, DoMintCommit, DoMintFinalize, DoRedeemLock,
      DoLockRefund, DoSubmitClaim, DoReclaim, DoFinalize,
      DoUseMultisig, DoRotate, DoPause, DoVeto, DoSetAnchor, Settled, LogAfter, AmountSum, LockChecked, ConsumedAfter,
        NullifiedAfter,
      TreeRoot, OwnProof, VerifyInclusion, VerifyExclusion, IssuerAfterCommit, IssuerAfterFinalize;
    var s' := NodeStep(c, s, op).0;
    if NodeStep(c, s, op).1.Err? {
      RefusedEffect(c, s, g, op);
      QuietSettles(c, s, s', g);
    } else {
      match op
      case IssuerRegister(p) => RegisterEffect(c, s, p);
      case OperatorRegister(p) => OperatorEffect(c, s, p);
      case MintCommit(id, w) => MintCommitEffect(c, s, id, w);
      case MintFinalize(id, w) => MintFinalizeEffect(c, s, id, w);
      case RedeemLock(w) => LockEffect(c, s, w);
      case LockRefund(w) => RefundEffect(c, s, w);
      case SubmitClaim(q) => var gross, claim := SubmitEffect(c, s, q);
      case ReclaimClaim(id, height) => ReclaimEffect(c, s, id, height);
      case FinalizeOp(id, committee, approvals, height) => FinalizeEffect(c, s, id, committee, approvals, height);
      case _ =>
        ConfigEffect(c, s, g, op);
        QuietSettles(c, s, s', g);
    }
  }

  lemma RegisterSettles(c: Crypto, s: NodeState, g: Books, p: IssuerPosition)
    requires NodeInv(c, s) && Settled(c, s, g) && DoIssuerRegister(c, s, p).1.Ok?
    ensures Settled(c, DoIssuerRegister(c, s, p).0, g) || FalseAbsence(c.poseidon2, s.issuerTree, p.issuerId)
  {
    RegisterEffect(c, s, p);
    IssuerKeys(c, s);
    hide NodeInv, DoIssuerRegister, IssuersSettled, LocksSettled, LogAmount, FalseAbsence, TreeRoot, OwnProof,
      VerifyExclusion;
    AbsentOr(c.poseidon2, s.issuerTree, p.issuerId);
    if p.issuerId !in s.issuers { OpenIssuer(c, s.issuers, g, p); }
  }

  lemma IssuerKeys(c: Crypto, s: NodeState)
    requires NodeInv(c, s)
    ensures s.issuers.Keys == s.issuerTree.Keys && s.claims.Keys == s.pendingTree.Keys && OnlySetMembers(s.lockTree)
    ensures forall id :: id in s.issuers ==> s.issuers[id].issuerId == id
  {
    hide RootsMatch, OnlySetMembers, ReserveConsistent, BooksMatch;
  }

  lemma MintCommitSettles(c: Crypto, s: NodeState, g: Books, id: Bytes32, w: MintCommitWitness)
    requires NodeInv(c, s) && Settled(c, s, g) && DoMintCommit(c, s, id, w).1.Ok?
    ensures Settled(c, DoMintCommit(c, s, id, w).0,
                    g.(deposits := g.deposits + w.depositSats, requests := g.requests[id := w.request]))
  {
    MintCommitEffect(c, s, id, w);
    IssuerKeys(c, s);
    hide NodeInv, DoMintCommit, IssuersSettled, LocksSettled, LogAmount, IssuerAfterCommit;
    IssuerCommits(c, s.issuers, g, id, w);
  }

  lemma MintFinalizeSettles(c: Crypto, s: NodeState, g: Books, id: Bytes32, w: MintFinalizeWitness)
    requires NodeInv(c, s) && Settled(c, s, g) && DoMintFinalize(c, s, id, w).1.Ok?
    ensures
      || Settled(c, DoMintFinalize(c, s, id, w).0, g.(minted := g.minted + w.request.atoms))
      || (id in g.requests && g.requests[id] != w.request
          && c.mintCommitment(g.requests[id]) == c.mintCommitment(w.request))
  {
    MintFinalizeEffect(c, s, id, w);
    IssuerKeys(c, s);
    hide NodeInv, DoMintFinalize, IssuersSettled, LocksSettled, LogAmount, IssuerAfterFinalize;
    IssuerFinalizes(c, s.issuers, g, id, w.request);
  }

  lemma LockSettles(c: Crypto, s: NodeState, g: Books, w: LockWitness)
    requires Settled(c, s, g) && DoRedeemLock(c, s, w).1.Ok?
    ensures Settled(c, DoRedeemLock(c, s, w).0, g)
  {
    LockEffect(c, s, w);
    hide DoRedeemLock, IssuersSettled, LocksSettled, LogAmount;
    LockRecorded(c, s.lockTree, s.consumedTree, s.refundTree, s.nullifierTree, g.log, c.lockHash(w.lock));
  }

  lemma RefundSettles(c: Crypto, s: NodeState, g: Books, w: RefundWitness)
    requires NodeInv(c, s) && Settled(c, s, g) && DoLockRefund(c, s, w).1.Ok?
    ensures
      || Settled(c, DoLockRefund(c, s, w).0, g)
      || FalsePresence(c.poseidon2, s.lockTree, c.lockHash(w.lock))
      || FalseAbsence(c.poseidon2, s.consumedTree, c.lockHash(w.lock))
  {
    RefundEffect(c, s, w);
    IssuerKeys(c, s);
    hide NodeInv, DoLockRefund, IssuersSettled, LocksSettled, LogAmount, FalsePresence, FalseAbsence, TreeRoot,
      OwnProof, VerifyInclusion, VerifyExclusion;
    var id := c.lockHash(w.lock);
    PresentOr(c.poseidon2, s.lockTree, id);
    AbsentOr(c.poseidon2, s.consumedTree, id);
    if id in s.lockTree && id !in s.consumedTree {
      LockRefunds(c, s.lockTree, s.consumedTree, s.refundTree, s.nullifierTree, g.log, id);
    }
  }

  lemma SubmitSettles(c: Crypto, s: NodeState, g: Books, q: Submission)
    requires NodeInv(c, s) && Settled(c, s, g) && DoSubmitClaim(c, s, q).1.Ok?
    ensures
      || Settled(c, DoSubmitClaim(c, s, q).0, Booked(c, s, g, SubmitClaim(q)))
      || BatchCollides(c, s, q.redemptions) || FalseAbsence(c.poseidon2, s.pendingTree, DoSubmitClaim(c, s, q).1.value)
  {
    hide NodeInv, DoSubmitClaim, Settled, LockChecked, LogAmount, BatchCollides, FalseAbsence, TreeRoot, OwnProof,
      VerifyExclusion, ConsumedAfter, NullifiedAfter, AmountSum, LogAfter;
    var gross, claim := SubmitEffect(c, s, q);
    IssuerKeys(c, s);
    SettledParts(c, s, g);
    AbsentOr(c.poseidon2, s.pendingTree, claim.claimId);
    if claim.claimId !in s.claims && !BatchCollides(c, s, q.redemptions) {
      var rs, n := q.redemptions, |q.redemptions|;
      BatchConsumes(c, s, g.log, rs, n);
      assert rs[..n] == rs;
      OpenClaim(s.claims, s.state.reservedPending, DoSubmitClaim(c, s, q).0.state.reservedPending, claim);
      SettledParts(c, DoSubmitClaim(c, s, q).0, Booked(c, s, g, SubmitClaim(q)));
    }
  }

  lemma SettledParts(c: Crypto, s: NodeState, g: Books)
    ensures Settled(c, s, g) <==>
      && IssuersSettled(c, s.issuers, g)
      && ClaimsSettled(s.claims, s.state.reservedPending)
      && LocksSettled(c, s.lockTree, s.consumedTree, s.refundTree, s.nullifierTree, g.log)
      && LogAmount(g.log) == g.redeemed
  {
    hide IssuersSettled, ClaimsSettled, LocksSettled, LogAmount;
  }

  lemma ReclaimSettles(c: Crypto, s: NodeState, g: Books, id: Bytes32, height: u32)
    requires NodeInv(c, s) && Settled(c, s, g) && DoReclaim(c, s, id, height).1.Ok?
    ensures Settled(c, DoReclaim(c, s, id, height).0, g)
  {
    ReclaimEffect(c, s, id, height);
    InvBooks(c, s);
    BooksAt(s.reserve, s.claims, id);
    hide NodeInv, DoReclaim, IssuersSettled, ClaimsSettled, LocksSettled, LogAmount;
    CloseClaim(s.claims, s.state.reservedPending, DoReclaim(c, s, id, height).0.state.reservedPending, id, Reclaimed);
  }

  lemma FinalizeSettles(c: Crypto, s: NodeState, g: Books, id: Bytes32, committee: Committee,
                        approvals: seq<MultisigSig>, height: u32)
    requires NodeInv(c, s) && Settled(c, s, g) && DoFinalize(c, s, id, committee, approvals, height).1.Ok?
    ensures id in s.claims
      && Settled(c, DoFinalize(c, s, id, committee, approvals, height).0,
                 g.(payouts := g.payouts + s.claims[id].reserved))
  {
    FinalizeEffect(c, s, id, committee, approvals, height);
    hide NodeInv, DoFinalize, ClaimsSettled, LocksSettled, LogAmount, Total;
    CloseClaim(s.claims, s.state.reservedPending,
               DoFinalize(c, s, id, committee, approvals, height).0.state.reservedPending, id, Finalized);
  }

  lemma StepSettles(c: Crypto, s: NodeState, g: Books, op: NodeOp)
    requires NodeInv(c, s) && SwapAllowed(s, op) && Settled(c, s, g)
    ensures Settled(c, NodeStep(c, s, op).0, BooksStep(c, s, g, op)) || StepCollides(c, s, g, op)
  {
    hide NodeInv, SwapAllowed, DoIssuerRegister, DoOperatorRegister, DoMintCommit, DoMintFinalize, DoRedeemLock,
      DoLockRefund, DoSubmitClaim, DoReclaim, DoFinalize,
      DoUseMultisig, DoRotate, DoPause, DoVeto, DoSetAnchor, Settled, LogAfter, AmountSum, BatchCollides, FalseAbsence,
        FalsePresence;
    var s' := NodeStep(c, s, op).0;
    if NodeStep(c, s, op).1.Err? {
      RefusedEffect(c, s, g, op);
      QuietSettles(c, s, s', g);
    } else {
      match op
      case IssuerRegister(p) => RegisterSettles(c, s, g, p);
      case OperatorRegister(p) => OperatorEffect(c, s, p); QuietSettles(c, s, s', g);
      case MintCommit(id, w) => MintCommitSettles(c, s, g, id, w);
      case MintFinalize(id, w) => MintFinalizeSettles(c, s, g, id, w);
      case RedeemLock(w) => LockSettles(c, s, g, w);
      case LockRefund(w) => RefundSettles(c, s, g, w);
      case SubmitClaim(q) => SubmitSettles(c, s, g, q);
      case ReclaimClaim(id, height) => ReclaimSettles(c, s, g, id, height);
      case FinalizeOp(id, committee, approvals, height) => FinalizeSettles(c, s, g, id, committee, approvals, height);
      case _ =>
        ConfigEffect(c, s, g, op);
        QuietSettles(c, s, s', g);
    }
  }

  /** The record sets only grow, whatever the hashes do. */
  predicate Grew(s: NodeState, s': NodeState) {
    && s.lockTree.Keys <= s'.lockTree.Keys && s.consumedTree.Keys <= s'.consumedTree.Keys
    && s.refundTree.Keys <= s'.refundTree.Keys && s.nullifierTree.Keys <= s'.nullifierTree.Keys
  }

  lemma {:induction false} BatchGrows(c: Crypto, s: NodeState, rs: seq<Redemption>, k: nat)
    requires k <= |rs|
    ensures s.consumedTree.Keys <= ConsumedAfter(c, s.consumedTree, rs, k).Keys
    ensures s.nullifierTree.Keys <= NullifiedAfter(c, s.nullifierTree, rs, k).Keys
  {
    hide NullifierOf;
    if k > 0 { BatchGrows(c, s, rs, k - 1); }
  }

  lemma StepGrows(c: Crypto, s: NodeState, op: NodeOp)
    requires NodeInv(c, s) && SwapAllowed(s, op)
    ensures Grew(s, NodeStep(c, s, op).0)
  {
    hide NodeInv, SwapAllowed, DoIssuerRegister, DoOperatorRegister, DoMintCommit, DoMintFinalize, DoRedeemLock,
      DoLockRefund, DoSubmitClaim, DoReclaim, DoFinalize,
      DoUseMultisig, DoRotate, DoPause, DoVeto, DoSetAnchor, AmountSum, LockChecked, ConsumedAfter, NullifiedAfter,
      TreeRoot, OwnProof, VerifyInclusion, VerifyExclusion, IssuerAfterCommit, IssuerAfterFinalize;
    if NodeStep(c, s, op).1.Err? {
      RefusedEffect(c, s, OPENING, op);
    } else {
      match op
      case IssuerRegister(p) => RegisterEffect(c, s, p);
      case OperatorRegister(p) => OperatorEffect(c, s, p);
      case MintCommit(id, w) => MintCommitEffect(c, s, id, w);
      case MintFinalize(id, w) => MintFinalizeEffect(c, s, id, w);
      case RedeemLock(w) => LockEffect(c, s, w);
      case LockRefund(w) => RefundEffect(c, s, w);
      case SubmitClaim(q) =>
        var gross, claim := SubmitEffect(c, s, q);
        BatchGrows(c, s, q.redemptions, |q.redemptions|);
      case ReclaimClaim(id, height) => ReclaimEffect(c, s, id, height);
      case FinalizeOp(id, committee, approvals, height) => FinalizeEffect(c, s, id, committee, approvals, height);
      case _ => ConfigEffect(c, s, OPENING, op);
    }
  }
}
