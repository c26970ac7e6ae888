/** The custody backends: the in-memory reserve that pays at once, and the reserve whose
    committee has to approve a claim before it is paid.

    Each backend is a class; its methods are proved against functions on a value of the
    same fields, and the statements about whole runs are about those functions. */
module Reserve {
  import opened Options
  import opened Bytes
  import opened StateTypes
  import opened Transitions

  datatype FinalizeError =
    Paused | Vetoed | UnknownClaim | AlreadyFinalized | ApprovalInsufficient(have: nat, need: nat)
    | ReserveInsufficient | WindowOpen | Disproven

  datatype ReserveSpend = ReserveSpend(claimId: Bytes32, operatorId: Bytes32, amount: u64)
  datatype PauseReason = StateNodeBug | FundsAtRisk | Manual
  datatype ReserveView = ReserveView(total: u64, reserved: u64)

  // ---------------------------------------------------------------- MockReserve

  datatype Held = Held(operatorId: Bytes32, amount: u64)
  datatype MockState = MockState(total: u64, reserved: u64, pending: map<Bytes32, Held>)

  function MockSubmit(s: MockState, id: Bytes32, operatorId: Bytes32, amount: u64): MockState {
    MockState(s.total, Wrap64(s.reserved + amount), s.pending[id := Held(operatorId, amount)])
  }

  function MockFinalize(s: MockState, id: Bytes32): (MockState, Result<ReserveSpend, FinalizeError>) {
    if id !in s.pending then (s, Err(UnknownClaim))
    else if s.total < s.pending[id].amount then (s, Err(FinalizeError.ReserveInsufficient))
    else
      var p := s.pending[id];
      (MockState(s.total - p.amount, Wrap64(s.reserved - p.amount), s.pending - {id}),
       Ok(ReserveSpend(id, p.operatorId, p.amount)))
  }

  function MockReclaim(s: MockState, id: Bytes32): (MockState, Result<u64, FinalizeError>) {
    if id !in s.pending then (s, Err(UnknownClaim))
    else (MockState(s.total, Wrap64(s.reserved - s.pending[id].amount), s.pending - {id}), Ok(s.pending[id].amount))
  }

  class MockReserve {
    var totalSats: u64
    var reservedSats: u64
    var pending: map<Bytes32, Held>

    function State(): MockState
      reads this
    {
      MockState(totalSats, reservedSats, pending)
    }

    constructor (totalSats: u64)
      ensures State() == MockState(totalSats, 0, map[])
    {
      this.totalSats := totalSats;
      reservedSats := 0;
      pending := map[];
    }

    method Credit(sats: u64)
      modifies this
      ensures State() == old(State()).(total := Wrap64(old(totalSats) + sats))
    {
      totalSats := Wrap64(totalSats + sats);
    }

    method SubmitClaim(id: Bytes32, operatorId: Bytes32, amount: u64)
      modifies this
      ensures State() == MockSubmit(old(State()), id, operatorId, amount)
    {
      reservedSats := Wrap64(reservedSats + amount);
      pending := pending[id := Held(operatorId, amount)];
    }

    /** Takes the claim out first, and puts it back when the reserve is short. */
    method FinalizeClaim(id: Bytes32) returns (r: Result<ReserveSpend, FinalizeError>)
      modifies this
      ensures (State(), r) == MockFinalize(old(State()), id)
    {
      if id !in pending { return Err(UnknownClaim); }
      var p := pending[id];
      pending := pending - {id};
      if totalSats < p.amount {
        pending := pending[id := p];
        assert pending == old(pending);
        return Err(FinalizeError.ReserveInsufficient);
      }
      totalSats := totalSats - p.amount;
      reservedSats := Wrap64(reservedSats - p.amount);
      r := Ok(ReserveSpend(id, p.operatorId, p.amount));
    }

    method ReclaimStale(id: Bytes32) returns (r: Result<u64, FinalizeError>)
      modifies this
      ensures (State(), r) == MockReclaim(old(State()), id)
    {
      if id !in pending { return Err(UnknownClaim); }
      var p := pending[id];
      pending := pending - {id};
      reservedSats := Wrap64(reservedSats - p.amount);
      r := Ok(p.amount);
    }
  }

  // ------------------------------------------------------------- MultisigReserve

  datatype Gated = Gated(operatorId: Bytes32, amount: u64, approvals: seq<MultisigSig>, vetoed: bool, finalized: bool)
  datatype MultisigState = MultisigState(
    total: u64, reserved: u64, committee: Committee, paused: Option<PauseReason>, pending: map<Bytes32, Gated>)

  predicate Authorized(c: Crypto, committee: Committee, id: Bytes32, a: MultisigSig) {
    a.signer in committee.keys && c.ecdsa(id, a.signer, a.signature)
  }

  predicate HasSigner(approvals: seq<MultisigSig>, signer: Key33) {
    exists i :: 0 <= i < |approvals| && approvals[i].signer == signer
  }

  function Approved(c: Crypto, s: MultisigState, id: Bytes32,
                    a: MultisigSig): (MultisigState, Result<(), FinalizeError>) {
    if id !in s.pending then (s, Err(UnknownClaim)) else
    var p := s.pending[id];
    if Authorized(c, s.committee, id, a) && !HasSigner(p.approvals, a.signer)
    then (s.(pending := s.pending[id := p.(approvals := p.approvals + [a])]), Ok(()))
    else (s, Ok(()))
  }

  function VetoedState(s: MultisigState, id: Bytes32): (MultisigState, Result<(), FinalizeError>) {
    if id !in s.pending then (s, Err(UnknownClaim))
    else (s.(pending := s.pending[id := s.pending[id].(vetoed := true)]), Ok(()))
  }

  function Rotated(s: MultisigState, committee: Committee): MultisigState {
    s.(committee := committee, pending := map id | id in s.pending :: s.pending[id].(approvals := []))
  }

  function MultisigSubmit(s: MultisigState, id: Bytes32, operatorId: Bytes32, amount: u64): MultisigState {
    s.(reserved := Wrap64(s.reserved + amount), pending := s.pending[id := Gated(operatorId, amount, [], false, false)])
  }

  function ApprovalCount(c: Crypto, s: MultisigState, id: Bytes32): nat {
    if id in s.pending then |SignersOf(c, id, s.committee.keys, s.pending[id].approvals)| else 0
  }

  function MultisigFinalize(c: Crypto, s: MultisigState,
                            id: Bytes32): (MultisigState, Result<ReserveSpend, FinalizeError>) {
    if s.paused.Some? then (s, Err(Paused))
    else if id !in s.pending then (s, Err(UnknownClaim))
    else
      var p := s.pending[id];
      var have, need := ApprovalCount(c, s, id), s.committee.threshold;
      if p.finalized then (s, Err(AlreadyFinalized))
      else if p.vetoed then (s, Err(Vetoed))
      else if have < need then (s, Err(FinalizeError.ApprovalInsufficient(have, need)))
      else if s.total < p.amount then (s, Err(FinalizeError.ReserveInsufficient))
      else (s.(total := s.total - p.amount, reserved := Wrap64(s.reserved - p.amount),
               pending := s.pending[id := p.(finalized := true)]),
            Ok(ReserveSpend(id, p.operatorId, p.amount)))
  }

  function MultisigReclaim(s: MultisigState, id: Bytes32): (MultisigState, Result<u64, FinalizeError>) {
    if id !in s.pending then (s, Err(UnknownClaim))
    else if s.pending[id].finalized then (s, Err(AlreadyFinalized))
    else (s.(reserved := Wrap64(s.reserved - s.pending[id].amount), pending := s.pending - {id}),
          Ok(s.pending[id].amount))
  }

  class MultisigReserve {
    const c: Crypto
    var totalSats: u64
    var reservedSats: u64
    var committee: Committee
    var paused: Option<PauseReason>
    var pending: map<Bytes32, Gated>

    function State(): MultisigState
      reads this
    {
      MultisigState(totalSats, reservedSats, committee, paused, pending)
    }

    constructor (c: Crypto, totalSats: u64, committee: Committee)
      ensures this.c == c && State() == MultisigState(totalSats, 0, committee, None, map[])
    {
      this.c := c;
      this.totalSats := totalSats;
      reservedSats := 0;
      this.committee := committee;
      paused := None;
      pending := map[];
    }

    method Credit(sats: u64)
      modifies this
      ensures State() == old(State()).(total := Wrap64(old(totalSats) + sats))
    {
      totalSats := Wrap64(totalSats + sats);
    }

    method EmergencyPause(reason: PauseReason)
      modifies this
      ensures State() == old(State()).(paused := Some(reason))
    {
      paused := Some(reason);
    }

    method Resume()
      modifies this
      ensures State() == old(State()).(paused := None)
    {
      paused := None;
    }

    /** Ignores strangers, bad signatures and members that approved before. */
    method AddApproval(id: Bytes32, a: MultisigSig) returns (r: Result<(), FinalizeError>)
      modifies this
      ensures (State(), r) == Approved(c, old(State()), id, a)
    {
      var authorized := Authorized(c, committee, id, a);
      if id !in pending { return Err(UnknownClaim); }
      if authorized && !HasSigner(pending[id].approvals, a.signer) {
        pending := pending[id := pending[id].(approvals := pending[id].approvals + [a])];
      }
      r := Ok(());
    }

    method Veto(id: Bytes32) returns (r: Result<(), FinalizeError>)
      modifies this
      ensures (State(), r) == VetoedState(old(State()), id)
    {
      if id !in pending { return Err(UnknownClaim); }
      pending := pending[id := pending[id].(vetoed := true)];
      r := Ok(());
    }

    method RotateCommittee(next: Committee)
      modifies this
      ensures State() == Rotated(old(State()), next)
    {
      committee := next;
      pending := map id | id in pending :: pending[id].(approvals := []);
    }

    method SubmitClaim(id: Bytes32, operatorId: Bytes32, amount: u64)
      modifies this
      ensures State() == MultisigSubmit(old(State()), id, operatorId, amount)
    {
      reservedSats := Wrap64(reservedSats + amount);
      pending := pending[id := Gated(operatorId, amount, [], false, false)];
    }

    method FinalizeClaim(id: Bytes32) returns (r: Result<ReserveSpend, FinalizeError>)
      modifies this
      ensures (State(), r) == MultisigFinalize(c, old(State()), id)
    {
      if paused.Some? { return Err(Paused); }
      if id !in pending { return Err(UnknownClaim); }
      var have := CountValidMultisig(c, id, committee.keys, pending[id].approvals);
      var p := pending[id];
      if p.finalized { return Err(AlreadyFinalized); }
      if p.vetoed { return Err(Vetoed); }
      if have < committee.threshold { return Err(FinalizeError.ApprovalInsufficient(have, committee.threshold)); }
      if totalSats < p.amount { return Err(FinalizeError.ReserveInsufficient); }
      totalSats := totalSats - p.amount;
      reservedSats := Wrap64(reservedSats - p.amount);
      pending := pending[id := p.(finalized := true)];
      r := Ok(ReserveSpend(id, p.operatorId, p.amount));
    }

    method ReclaimStale(id: Bytes32) returns (r: Result<u64, FinalizeError>)
      modifies this
      ensures (State(), r) == MultisigReclaim(old(State()), id)
    {
      if id !in pending { return Err(UnknownClaim); }
      if pending[id].finalized { return Err(AlreadyFinalized); }
      var amount := pending[id].amount;
      reservedSats := Wrap64(reservedSats - amount);
      pending := pending - {id};
      r := Ok(amount);
    }
  }

  // ------------------------------------------------------------------ whole runs

  datatype Op =
    | Credit(sats: u64)
    | Submit(id: Bytes32, operatorId: Bytes32, amount: u64)
    | Approve(id: Bytes32, approval: MultisigSig)
    | Veto(id: Bytes32)
    | Rotate(committee: Committee)
    | Pause(reason: PauseReason)
    | Resume
    | Finalize(id: Bytes32)
    | Reclaim(id: Bytes32)

  /** One call, and the payment it makes if any. */
  function Step(c: Crypto, s: MultisigState, op: Op): (MultisigState, Option<ReserveSpend>) {
    match op
    case Credit(sats) => (s.(total := Wrap64(s.total + sats)), None)
    case Submit(id, operatorId, amount) => (MultisigSubmit(s, id, operatorId, amount), None)
    case Approve(id, a) => (Approved(c, s, id, a).0, None)
    case Veto(id) => (VetoedState(s, id).0, None)
    case Rotate(committee) => (Rotated(s, committee), None)
    case Pause(reason) => (s.(paused := Some(reason)), None)
    case Resume => (s.(paused := None), None)
    case Finalize(id) =>
      var (s', r) := MultisigFinalize(c, s, id);
      (s', if r.Ok? then Some(r.value) else None)
    case Reclaim(id) => (MultisigReclaim(s, id).0, None)
  }

  /** The state after a run, and the payments it made. */
  function Run(c: Crypto, s: MultisigState, ops: seq<Op>): (MultisigState, seq<ReserveSpend>) {
    if |ops| == 0 then (s, []) else
    var (s', paid) := Run(c, s, ops[..|ops| - 1]);
    var (s'', spend) := Step(c, s', ops[|ops| - 1]);
    (s'', if spend.Some? then paid + [spend.value] else paid)
  }

  /** Stored approvals are valid and from distinct members of the current committee. */
  predicate ApprovalsGood(c: Crypto, s: MultisigState, id: Bytes32)
    requires id in s.pending
  {
    var approvals := s.pending[id].approvals;
    && (forall i :: 0 <= i < |approvals| ==> Authorized(c, s.committee, id, approvals[i]))
    && forall i, j :: 0 <= i < j < |approvals| ==> approvals[i].signer != approvals[j].signer
  }

  predicate AllGood(c: Crypto, s: MultisigState) {
    forall id :: id in s.pending ==> ApprovalsGood(c, s, id)
  }

  lemma StepKeepsGood(c: Crypto, s: MultisigState, op: Op)
    requires AllGood(c, s)
    ensures AllGood(c, Step(c, s, op).0)
  {
    hide SignersOf, ApprovalsGood, Wrap64;
    var s' := Step(c, s, op).0;
    forall id | id in s'.pending
      ensures ApprovalsGood(c, s', id)
    {
      StepKeepsApprovals(c, s, op, id);
    }
  }

  lemma StepKeepsApprovals(c: Crypto, s: MultisigState, op: Op, id: Bytes32)
    requires id in Step(c, s, op).0.pending && (id in s.pending ==> ApprovalsGood(c, s, id))
    ensures ApprovalsGood(c, Step(c, s, op).0, id)
  {
    hide SignersOf, Wrap64;
  }

  lemma {:induction false} RunKeepsGood(c: Crypto, s: MultisigState, ops: seq<Op>)
    requires AllGood(c, s)
    ensures AllGood(c, Run(c, s, ops).0)
  {
    hide Step, AllGood;
    if |ops| > 0 {
      RunKeepsGood(c, s, ops[..|ops| - 1]);
      StepKeepsGood(c, Run(c, s, ops[..|ops| - 1]).0, ops[|ops| - 1]);
    }
  }

  lemma {:induction false} DistinctSigners(c: Crypto, msg: Bytes32, keys: seq<Key33>, sigs: seq<MultisigSig>)
    requires forall i :: 0 <= i < |sigs| ==> sigs[i].signer in keys && c.ecdsa(msg, sigs[i].signer, sigs[i].signature)
    requires forall i, j :: 0 <= i < j < |sigs| ==> sigs[i].signer != sigs[j].signer
    ensures |SignersOf(c, msg, keys, sigs)| == |sigs|
  {
    if |sigs| == 0 {
      assert SignersOf(c, msg, keys, sigs) == {};
    } else {
      var init, last := sigs[..|sigs| - 1], sigs[|sigs| - 1];
      DistinctSigners(c, msg, keys, init);
      assert sigs == init + [last];
      assert SignersOf(c, msg, keys, sigs) == SignersOf(c, msg, keys, init) + {last.signer};
    }
  }

  /** In every state that a run reaches, also after rotations, a claim's approval count is
      the length of its approval list. */
  lemma CountIsLength(c: Crypto, total: u64, committee: Committee, ops: seq<Op>, id: Bytes32)
    requires id in Run(c, MultisigState(total, 0, committee, None, map[]), ops).0.pending
    ensures var s := Run(c, MultisigState(total, 0, committee, None, map[]), ops).0;
      ApprovalCount(c, s, id) == |s.pending[id].approvals|
  {
    var s0 := MultisigState(total, 0, committee, None, map[]);
    hide Run, Step, SignersOf;
    RunKeepsGood(c, s0, ops);
    var s := Run(c, s0, ops).0;
    assert ApprovalsGood(c, s, id);
    DistinctSigners(c, id, s.committee.keys, s.pending[id].approvals);
  }

  // ------------------------------------------------------------- paid at most once

  /** Every claim id is submitted once at most. */
  predicate FreshIds(ops: seq<Op>) {
    forall i, j :: 0 <= i < j < |ops| && ops[i].Submit? && ops[j].Submit? ==> ops[i].id != ops[j].id
  }

  predicate Submitted(ops: seq<Op>, id: Bytes32) {
    exists i :: 0 <= i < |ops| && ops[i].Submit? && ops[i].id == id
  }

  predicate PaidOnce(paid: seq<ReserveSpend>) {
    forall i, j :: 0 <= i < j < |paid| ==> paid[i].claimId != paid[j].claimId
  }

  /** A paid claim was submitted, and can only be in the book as finalized. */
  predicate Accounted(s: MultisigState, ops: seq<Op>, spend: ReserveSpend) {
    Submitted(ops, spend.claimId) && (spend.claimId in s.pending ==> s.pending[spend.claimId].finalized)
  }

  predicate BookInv(s: MultisigState, ops: seq<Op>, paid: seq<ReserveSpend>) {
    && PaidOnce(paid)
    && (forall id :: id in s.pending ==> Submitted(ops, id))
    && forall i :: 0 <= i < |paid| ==> Accounted(s, ops, paid[i])
  }

  lemma SubmittedGrows(ops: seq<Op>, op: Op, id: Bytes32)
    ensures Submitted(ops, id) ==> Submitted(ops + [op], id)
    ensures op.Submit? ==> Submitted(ops + [op], op.id)
  {
    if Submitted(ops, id) {
      var i :| 0 <= i < |ops| && ops[i].Submit? && ops[i].id == id;
      assert (ops + [op])[i] == ops[i];
    }
    assert (ops + [op])[|ops|] == op;
  }

  lemma StepKeepsBook(c: Crypto, s: MultisigState, ops: seq<Op>, paid: seq<ReserveSpend>, op: Op)
    requires BookInv(s, ops, paid) && FreshIds(ops + [op])
    ensures var (s', spend) := Step(c, s, op);
      BookInv(s', ops + [op], if spend.Some? then paid + [spend.value] else paid)
  {
    var (s', spend) := Step(c, s, op);
    hide SignersOf, FreshIds, Wrap64;
    forall id | id in s'.pending
      ensures Submitted(ops + [op], id)
    {
      SubmittedGrows(ops, op, id);
    }
    forall i | 0 <= i < |paid|
      ensures Accounted(s', ops + [op], paid[i])
    {
      SubmittedGrows(ops, op, paid[i].claimId);
      assert Accounted(s, ops, paid[i]);
      if op.Submit? { NotAgain(ops, op, paid[i].claimId); }
    }
    if spend.Some? {
      SubmittedGrows(ops, op, op.id);
      assert Accounted(s', ops + [op], spend.value);
      forall i | 0 <= i < |paid|
        ensures paid[i].claimId != spend.value.claimId
      {
        assert Accounted(s, ops, paid[i]);
      }
    }
  }

  lemma NotAgain(ops: seq<Op>, op: Op, id: Bytes32)
    requires FreshIds(ops + [op]) && op.Submit? && Submitted(ops, id)
    ensures op.id != id
  {
    var i :| 0 <= i < |ops| && ops[i].Submit? && ops[i].id == id;
    assert (ops + [op])[i] == ops[i] && (ops + [op])[|ops|] == op;
  }

  lemma FreshPrefix(ops: seq<Op>)
    requires FreshIds(ops) && |ops| > 0
    ensures FreshIds(ops[..|ops| - 1])
  {
  }

  lemma {:induction false} RunKeepsBook(c: Crypto, s: MultisigState, ops: seq<Op>)
    requires s.pending == map[] && FreshIds(ops)
    ensures BookInv(Run(c, s, ops).0, ops, Run(c, s, ops).1)
  {
    hide Step, BookInv, FreshIds;
    if |ops| > 0 {
      var init, last := ops[..|ops| - 1], ops[|ops| - 1];
      FreshPrefix(ops);
      RunKeepsBook(c, s, init);
      assert ops == init + [last];
      StepKeepsBook(c, Run(c, s, init).0, init, Run(c, s, init).1, last);
    } else {
      EmptyBook(c, s);
    }
  }

  lemma EmptyBook(c: Crypto, s: MultisigState)
    requires s.pending == map[]
    ensures BookInv(s, [], [])
  {
  }

  /** Safety over every run with fresh claim ids: no claim is paid twice. */
  lemma PaidAtMostOnce(c: Crypto, total: u64, committee: Committee, ops: seq<Op>)
    requires FreshIds(ops)
    ensures PaidOnce(Run(c, MultisigState(total, 0, committee, None, map[]), ops).1)
  {
    hide Run, Step;
    RunKeepsBook(c, MultisigState(total, 0, committee, None, map[]), ops);
  }

  /** A held claim that nothing stops: the reserve is not paused and holds the amount, the claim
      is not vetoed and not paid, and at least the threshold of members approved it. */
  predicate Due(s: MultisigState, id: Bytes32) {
    && s.paused.None? && id in s.pending && !s.pending[id].vetoed && !s.pending[id].finalized
    && s.committee.threshold <= |s.pending[id].approvals| && s.pending[id].amount <= s.total
  }

  /** When a payment happens, in every reachable state: exactly on the finalization of such a
      claim, whose approvals are valid and from distinct current members; it is marked paid and
      leaves the reserve. */
  lemma PaymentConditions(c: Crypto, total: u64, committee: Committee, ops: seq<Op>, op: Op)
    ensures var s := Run(c, MultisigState(total, 0, committee, None, map[]), ops).0;
      && (Step(c, s, op).1.Some? <==> op.Finalize? && Due(s, op.id))
      && (op.Finalize? && Due(s, op.id) ==>
           var p := s.pending[op.id];
           && ApprovalsGood(c, s, op.id)
           && Step(c, s, op) ==
                (MultisigState(s.total - p.amount, (s.reserved - p.amount) % 0x1_0000_0000_0000_0000, s.committee, None,
                               s.pending[op.id := Gated(p.operatorId, p.amount, p.approvals, false, true)]),
                 Some(ReserveSpend(op.id, p.operatorId, p.amount))))
  {
    var s0 := MultisigState(total, 0, committee, None, map[]);
    var s := Run(c, s0, ops).0;
    hide Run, SignersOf, ApprovalsGood;
    if op.Finalize? && op.id in s.pending { CountIsLength(c, total, committee, ops, op.id); }
    RunKeepsGood(c, s0, ops);
    assert AllGood(c, s);
  }

  /** A claim can be taken back exactly while it is held and not paid; it then leaves the
      custody together with its reservation, and the money stays. */
  lemma ReclaimConditions(s: MultisigState, id: Bytes32)
    ensures MultisigReclaim(s, id).1.Ok? <==> id in s.pending && !s.pending[id].finalized
    ensures MultisigReclaim(s, id).1.Ok? ==>
      var p := s.pending[id];
      MultisigReclaim(s, id) ==
        (s.(reserved := (s.reserved - p.amount) % 0x1_0000_0000_0000_0000, pending := s.pending - {id}), Ok(p.amount))
    ensures MultisigReclaim(s, id).1.Err? ==> MultisigReclaim(s, id).0 == s
  {
  }

  /** The plain custody pays exactly a held claim that it covers, and takes back any held one. */
  lemma PlainConditions(s: MockState, id: Bytes32)
    ensures MockFinalize(s, id).1.Ok? <==> id in s.pending && s.pending[id].amount <= s.total
    ensures MockReclaim(s, id).1.Ok? <==> id in s.pending
    ensures id in s.pending ==>
      var p := s.pending[id];
      var freed := (s.reserved - p.amount) % 0x1_0000_0000_0000_0000;
      && MockReclaim(s, id) == (MockState(s.total, freed, s.pending - {id}), Ok(p.amount))
      && (p.amount <= s.total ==>
           MockFinalize(s, id) ==
             (MockState(s.total - p.amount, freed, s.pending - {id}), Ok(ReserveSpend(id, p.operatorId, p.amount))))
    ensures MockFinalize(s, id).1.Err? ==> MockFinalize(s, id).0 == s
  {
  }

  // -------------------------------------------------------------- conservation

  function Credited(ops: seq<Op>): nat {
    if |ops| == 0 then 0 else Credited(ops[..|ops| - 1]) + if ops[|ops| - 1].Credit? then ops[|ops| - 1].sats else 0
  }

  function PaidSum(paid: seq<ReserveSpend>): nat {
    if |paid| == 0 then 0 else PaidSum(paid[..|paid| - 1]) + paid[|paid| - 1].amount
  }

  /** What the reserve holds and what it paid add up to what was put in, as long as the
      deposits fit the counter. */
  lemma {:induction false} ReserveConserved(c: Crypto, s: MultisigState, ops: seq<Op>)
    requires s.total + Credited(ops) < TWO64
    ensures var (s', paid) := Run(c, s, ops); s'.total + PaidSum(paid) == s.total + Credited(ops)
  {
    if |ops| > 0 {
      ReserveConserved(c, s, ops[..|ops| - 1]);
      var (s', paid) := Run(c, s, ops[..|ops| - 1]);
      var (s'', spend) := Step(c, s', ops[|ops| - 1]);
      hide Run;
      StepConserves(c, s', ops[|ops| - 1]);
      if spend.Some? { assert (paid + [spend.value])[..|paid|] == paid; }
    }
  }

  lemma StepConserves(c: Crypto, s: MultisigState, op: Op)
    requires op.Credit? ==> s.total + op.sats < TWO64
    ensures var (s', spend) := Step(c, s, op);
      s'.total + (if spend.Some? then spend.value.amount else 0) == s.total + (if op.Credit? then op.sats else 0)
  {
    hide SignersOf;
  }

  // -------------------------------------------------------------- what stops a payment

  predicate NoSubmit(ops: seq<Op>, id: Bytes32) {
    forall i :: 0 <= i < |ops| && ops[i].Submit? ==> ops[i].id != id
  }

  /** The claim cannot be paid as the book stands. */
  predicate Stopped(s: MultisigState, id: Bytes32) {
    id in s.pending ==> s.pending[id].vetoed
  }

  lemma StepStaysStopped(c: Crypto, s: MultisigState, op: Op, id: Bytes32)
    requires Stopped(s, id) && !(op.Submit? && op.id == id)
    ensures Stopped(Step(c, s, op).0, id)
    ensures Step(c, s, op).1.Some? ==> Step(c, s, op).1.value.claimId != id
  {
    hide SignersOf, Wrap64;
  }

  lemma {:induction false} StaysStopped(c: Crypto, s: MultisigState, ops: seq<Op>, id: Bytes32)
    requires Stopped(s, id) && NoSubmit(ops, id)
    ensures Stopped(Run(c, s, ops).0, id)
    ensures forall i :: 0 <= i < |Run(c, s, ops).1| ==> Run(c, s, ops).1[i].claimId != id
  {
    hide Step, Stopped;
    if |ops| > 0 {
      StaysStopped(c, s, ops[..|ops| - 1], id);
      StepStaysStopped(c, Run(c, s, ops[..|ops| - 1]).0, ops[|ops| - 1], id);
    }
  }

  /** A veto is final: from any state, no run without a new submission pays the claim. */
  lemma VetoStops(c: Crypto, s: MultisigState, ops: seq<Op>, id: Bytes32)
    requires NoSubmit(ops, id)
    ensures var paid := Run(c, Step(c, s, Veto(id)).0, ops).1;
      forall i :: 0 <= i < |paid| ==> paid[i].claimId != id
  {
    var s' := Step(c, s, Veto(id)).0;
    assert Stopped(s', id);
    hide Run, Step, Stopped;
    StaysStopped(c, s', ops, id);
  }

  lemma StepStaysPaused(c: Crypto, s: MultisigState, op: Op)
    requires s.paused.Some? && !op.Resume?
    ensures Step(c, s, op).0.paused.Some? && Step(c, s, op).1.None?
  {
    hide SignersOf, Wrap64;
  }

  /** A paused reserve pays nothing until it is resumed. */
  lemma {:induction false} PauseStops(c: Crypto, s: MultisigState, ops: seq<Op>, reason: PauseReason)
    requires forall i :: 0 <= i < |ops| ==> !ops[i].Resume?
    ensures var (s', paid) := Run(c, Step(c, s, Pause(reason)).0, ops); s'.paused.Some? && paid == []
  {
    if |ops| > 0 {
      hide Step;
      PauseStops(c, s, ops[..|ops| - 1], reason);
      StepStaysPaused(c, Run(c, Step(c, s, Pause(reason)).0, ops[..|ops| - 1]).0, ops[|ops| - 1]);
    }
  }

  /** How often approvals for a claim were handed in. */
  function ApprovesOf(ops: seq<Op>, id: Bytes32): nat {
    if |ops| == 0 then 0 else
    var last := ops[|ops| - 1];
    ApprovesOf(ops[..|ops| - 1], id) + if last.Approve? && last.id == id then 1 else 0
  }

  lemma StepAddsOne(c: Crypto, s: MultisigState, op: Op, id: Bytes32, n: nat)
    requires id in s.pending ==> |s.pending[id].approvals| <= n
    ensures var s' := Step(c, s, op).0;
      id in s'.pending ==> |s'.pending[id].approvals| <= n + if op.Approve? && op.id == id then 1 else 0
  {
    hide SignersOf, Wrap64;
  }

  /** After a rotation only the approvals handed in since then count: the new members have to
      approve again. */
  lemma {:induction false} RotationForgets(c: Crypto, s: MultisigState, committee: Committee, ops: seq<Op>, id: Bytes32)
    ensures var s' := Run(c, Step(c, s, Rotate(committee)).0, ops).0;
      id in s'.pending ==> |s'.pending[id].approvals| <= ApprovesOf(ops, id)
  {
    if |ops| > 0 {
      hide Step;
      RotationForgets(c, s, committee, ops[..|ops| - 1], id);
      StepAddsOne(c, Run(c, Step(c, s, Rotate(committee)).0, ops[..|ops| - 1]).0, ops[|ops| - 1], id,
                  ApprovesOf(ops[..|ops| - 1], id));
    }
  }
}
