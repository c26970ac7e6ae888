/** The optimistic custody: a claim is asserted, may be disproven, and is withdrawn when
    its challenge window has elapsed.  The money itself is in a `MockReserve`. */
module Dispute {
  import opened Options
  import opened Bytes
  import opened StateTypes
  import opened Reserve
  import opened Totals

  datatype Asserted = Asserted(openHeight: u32, disproven: bool)
  datatype WindowStatus = Open | Elapsed | Disproved
  datatype PlayState = PlayState(custody: MockState, window: u32, now: u32, asserts: map<Bytes32, Asserted>)

  /** The height at which a window ends, in the source's 32-bit arithmetic. */
  function WindowEnd(openHeight: u32, window: u32): u32 {
    (openHeight + window) % TWO32
  }

  function Status(s: PlayState, id: Bytes32): WindowStatus {
    if id !in s.asserts then Open
    else if s.asserts[id].disproven then Disproved
    else if s.now >= WindowEnd(s.asserts[id].openHeight, s.window) then Elapsed
    else Open
  }

  function AssertedState(s: PlayState, id: Bytes32): PlayState {
    s.(asserts := s.asserts[id := Asserted(s.now, false)])
  }

  function DisprovedState(s: PlayState, id: Bytes32): PlayState {
    s.(asserts := if id in s.asserts then s.asserts[id := s.asserts[id].(disproven := true)] else s.asserts,
       custody := MockReclaim(s.custody, id).0)
  }

  function Withdrawn(s: PlayState, id: Bytes32): (PlayState, Result<ReserveSpend, FinalizeError>) {
    match Status(s, id)
    case Disproved => (s, Err(Disproven))
    case Open => (s, Err(WindowOpen))
    case Elapsed =>
      var (m, r) := MockFinalize(s.custody, id);
      (s.(custody := m), r)
  }

  class PlaygroundReserve {
    const custody: MockReserve
    const challengeWindow: u32
    var now: u32
    var asserts: map<Bytes32, Asserted>

    function State(): PlayState
      reads this, custody
    {
      PlayState(custody.State(), challengeWindow, now, asserts)
    }

    constructor (totalSats: u64, challengeWindow: u32)
      ensures fresh(custody) && State() == PlayState(MockState(totalSats, 0, map[]), challengeWindow, 0, map[])
    {
      custody := new MockReserve(totalSats);
      this.challengeWindow := challengeWindow;
      now := 0;
      asserts := map[];
    }

    method SetHeight(height: u32)
      modifies this
      ensures State() == old(State()).(now := height)
    {
      now := height;
    }

    method Credit(sats: u64)
      modifies custody
      ensures State() == old(State()).(custody := old(custody.State()).(total := Wrap64(old(custody.totalSats) + sats)))
    {
      custody.Credit(sats);
    }

    method SubmitClaim(id: Bytes32, operatorId: Bytes32, amount: u64)
      modifies custody
      ensures State() == old(State()).(custody := MockSubmit(old(custody.State()), id, operatorId, amount))
    {
      custody.SubmitClaim(id, operatorId, amount);
    }

    /** Inherited from the plain reserve: it does not look at the window. */
    method FinalizeClaim(id: Bytes32) returns (r: Result<ReserveSpend, FinalizeError>)
      modifies custody
      ensures State() == old(State()).(custody := MockFinalize(old(custody.State()), id).0)
      ensures r == MockFinalize(old(custody.State()), id).1
    {
      r := custody.FinalizeClaim(id);
    }

    method ReclaimStale(id: Bytes32) returns (r: Result<u64, FinalizeError>)
      modifies custody
      ensures State() == old(State()).(custody := MockReclaim(old(custody.State()), id).0)
      ensures r == MockReclaim(old(custody.State()), id).1
    {
      r := custody.ReclaimStale(id);
    }

    method SubmitAssert(id: Bytes32)
      modifies this
      ensures State() == AssertedState(old(State()), id)
    {
      asserts := asserts[id := Asserted(now, false)];
    }

    /** Marks the assert, and frees the reservation whether or not there was one. */
    method SubmitDisprove(id: Bytes32)
      modifies this, custody
      ensures State() == DisprovedState(old(State()), id)
    {
      if id in asserts {
        asserts := asserts[id := asserts[id].(disproven := true)];
      }
      var freed := custody.ReclaimStale(id);
    }

    method ObserveChallengeWindow(id: Bytes32) returns (status: WindowStatus)
      ensures status == Status(State(), id)
    {
      if id !in asserts { return Open; }
      if asserts[id].disproven { return Disproved; }
      status := if now >= (asserts[id].openHeight + challengeWindow) % TWO32 then Elapsed else Open;
    }

    method FinalizeWithdraw(id: Bytes32) returns (r: Result<ReserveSpend, FinalizeError>)
      modifies custody
      ensures (State(), r) == Withdrawn(old(State()), id)
    {
      var status := ObserveChallengeWindow(id);
      match status
      case Disproved => r := Err(Disproven);
      case Open => r := Err(WindowOpen);
      case Elapsed => r := custody.FinalizeClaim(id);
    }
  }

  // ------------------------------------------------------------------ whole runs

  datatype PlayOp =
    | Credit(sats: u64)
    | SetHeight(height: u32)
    | Submit(id: Bytes32, operatorId: Bytes32, amount: u64)
    | Finalize(id: Bytes32)
    | Reclaim(id: Bytes32)
    | Assert(id: Bytes32)
    | Disprove(id: Bytes32)
    | Withdraw(id: Bytes32)
    | Pause

  function Paid(r: Result<ReserveSpend, FinalizeError>): Option<ReserveSpend> {
    if r.Ok? then Some(r.value) else None
  }

  /** One call, and the payment it makes if any. */
  function PlayStep(s: PlayState, op: PlayOp): (PlayState, Option<ReserveSpend>) {
    match op
    case Credit(sats) => (s.(custody := s.custody.(total := Wrap64(s.custody.total + sats))), None)
    case SetHeight(height) => (s.(now := height), None)
    case Submit(id, operatorId, amount) => (s.(custody := MockSubmit(s.custody, id, operatorId, amount)), None)
    case Finalize(id) => (s.(custody := MockFinalize(s.custody, id).0), Paid(MockFinalize(s.custody, id).1))
    case Reclaim(id) => (s.(custody := MockReclaim(s.custody, id).0), None)
    case Assert(id) => (AssertedState(s, id), None)
    case Disprove(id) => (DisprovedState(s, id), None)
    case Withdraw(id) => (Withdrawn(s, id).0, Paid(Withdrawn(s, id).1))
    case Pause => (s, None)
  }

  function PlayRun(s: PlayState, ops: seq<PlayOp>): (PlayState, seq<ReserveSpend>) {
    if |ops| == 0 then (s, []) else
    var (s', paid) := PlayRun(s, ops[..|ops| - 1]);
    var (s'', spend) := PlayStep(s', ops[|ops| - 1]);
    (s'', if spend.Some? then paid + [spend.value] else paid)
  }

  /** When a call pays, and what: exactly the held amount of a held claim, by a withdrawal
      whose window has elapsed undisproven or by the inherited finalization. */
  lemma PaysIff(s: PlayState, op: PlayOp, spend: ReserveSpend)
    ensures PlayStep(s, op).1 == Some(spend) <==>
      && (op == Withdraw(spend.claimId) || op == PlayOp.Finalize(spend.claimId))
      && spend.claimId in s.custody.pending && s.custody.pending[spend.claimId] == Held(spend.operatorId, spend.amount)
      && spend.amount <= s.custody.total
      && (op.Withdraw? ==> && spend.claimId in s.asserts && !s.asserts[spend.claimId].disproven
                           && s.now >= WindowEnd(s.asserts[spend.claimId].openHeight, s.window))
  {
    hide WindowEnd, Wrap64;
  }

  // ------------------------------------------------------------- after a disprove

  predicate NoSubmit(ops: seq<PlayOp>, id: Bytes32) {
    forall i :: 0 <= i < |ops| && ops[i].Submit? ==> ops[i].id != id
  }

  predicate NotPaid(paid: seq<ReserveSpend>, id: Bytes32) {
    forall i :: 0 <= i < |paid| ==> paid[i].claimId != id
  }

  lemma StaysGone(s: PlayState, op: PlayOp, id: Bytes32)
    requires id !in s.custody.pending && (op.Submit? ==> op.id != id)
    ensures id !in PlayStep(s, op).0.custody.pending
    ensures PlayStep(s, op).1.Some? ==> PlayStep(s, op).1.value.claimId != id
  {
    hide Status, Wrap64;
  }

  lemma {:induction false} GoneIsNotPaid(s: PlayState, ops: seq<PlayOp>, id: Bytes32)
    requires id !in s.custody.pending && NoSubmit(ops, id)
    ensures id !in PlayRun(s, ops).0.custody.pending && NotPaid(PlayRun(s, ops).1, id)
  {
    hide PlayStep;
    if |ops| > 0 {
      GoneIsNotPaid(s, ops[..|ops| - 1], id);
      StaysGone(PlayRun(s, ops[..|ops| - 1]).0, ops[|ops| - 1], id);
    }
  }

  /** From any state: once a claim is disproven no later run of calls pays it, unless it is
      submitted again; not even when it is asserted again and the window elapses. */
  lemma DisprovedIsNotPaid(s: PlayState, id: Bytes32, ops: seq<PlayOp>)
    requires NoSubmit(ops, id)
    ensures NotPaid(PlayRun(PlayStep(s, Disprove(id)).0, ops).1, id)
  {
    hide PlayRun, Wrap64;
    GoneIsNotPaid(PlayStep(s, Disprove(id)).0, ops, id);
  }

  /** Submitting it again is enough for it to be paid. */
  lemma ResubmittedIsPaid(s: PlayState, id: Bytes32, operatorId: Bytes32, amount: u64)
    requires amount <= s.custody.total
    ensures PlayRun(PlayStep(s, Disprove(id)).0, [PlayOp.Submit(id, operatorId, amount), PlayOp.Finalize(id)]).1 ==
      [ReserveSpend(id, operatorId, amount)]
  {
    var s1 := PlayStep(s, Disprove(id)).0;
    hide WindowEnd, Wrap64, Status, PlayRun;
    RunTwo(s1, PlayOp.Submit(id, operatorId, amount), PlayOp.Finalize(id));
  }

  lemma RunTwo(s: PlayState, a: PlayOp, b: PlayOp)
    requires PlayStep(s, a).1.None?
    ensures PlayRun(s, [a, b]).1 ==
      match PlayStep(PlayStep(s, a).0, b).1 { case Some(spend) => [spend] case None => [] }
  {
    hide PlayStep;
    assert [a, b][..1] == [a] && [a][..0] == [];
    assert PlayRun(s, [a]) == (PlayStep(s, a).0, []);
  }

  // ------------------------------------------------------------------ the window

  /** The run left its trace: a claim that could be withdrawn was asserted at a step with
      no disprove after it, and its window counts from the height of that step. */
  ghost predicate AssertedAt(s0: PlayState, ops: seq<PlayOp>, id: Bytes32, i: nat, openHeight: u32) {
    && i < |ops| && ops[i] == Assert(id) && PlayRun(s0, ops[..i]).0.now == openHeight
    && forall j :: i < j < |ops| ==> ops[j] != Disprove(id)
  }

  lemma AssertedLater(s0: PlayState, ops: seq<PlayOp>, op: PlayOp, id: Bytes32, i: nat, openHeight: u32)
    requires AssertedAt(s0, ops, id, i, openHeight) && op != Disprove(id)
    ensures AssertedAt(s0, ops + [op], id, i, openHeight)
  {
    hide PlayRun;
    assert (ops + [op])[..i] == ops[..i];
  }

  lemma AssertKept(s: PlayState, op: PlayOp, id: Bytes32)
    requires var a := PlayStep(s, op).0.asserts; id in a && !a[id].disproven
    ensures op != Disprove(id)
    ensures op != Assert(id) ==> id in s.asserts && s.asserts[id] == PlayStep(s, op).0.asserts[id]
    ensures op == Assert(id) ==> PlayStep(s, op).0.asserts[id].openHeight == s.now
  {
    hide WindowEnd, Wrap64;
  }

  lemma {:induction false} AssertTraced(s0: PlayState, ops: seq<PlayOp>, id: Bytes32) returns (i: nat)
    requires s0.asserts == map[]
    requires var a := PlayRun(s0, ops).0.asserts; id in a && !a[id].disproven
    ensures AssertedAt(s0, ops, id, i, PlayRun(s0, ops).0.asserts[id].openHeight)
  {
    hide PlayStep;
    var init, op := ops[..|ops| - 1], ops[|ops| - 1];
    assert init + [op] == ops;
    AssertKept(PlayRun(s0, init).0, op, id);
    if op == Assert(id) {
      i := |ops| - 1;
    } else {
      i := AssertTraced(s0, init, id);
      hide PlayRun;
      AssertedLater(s0, init, op, id, i, PlayRun(s0, init).0.asserts[id].openHeight);
    }
  }

  lemma {:induction false} WindowFixed(s0: PlayState, ops: seq<PlayOp>)
    ensures PlayRun(s0, ops).0.window == s0.window
  {
    hide WindowEnd, Wrap64;
    if |ops| > 0 { WindowFixed(s0, ops[..|ops| - 1]); }
  }

  /** A withdrawal over a whole run: the claim was asserted at some step, was not disproven
      since, and the height has passed the end of the window counted from that step. */
  lemma WithdrawalTraced(totalSats: u64, window: u32, ops: seq<PlayOp>, id: Bytes32) returns (i: nat)
    requires PlayStep(PlayRun(PlayState(MockState(totalSats, 0, map[]), window, 0, map[]), ops).0, Withdraw(id)).1.Some?
    ensures i < |ops| && ops[i] == Assert(id) && forall j :: i < j < |ops| ==> ops[j] != Disprove(id)
    ensures var s0 := PlayState(MockState(totalSats, 0, map[]), window, 0, map[]);
      PlayRun(s0, ops).0.now >= WindowEnd(PlayRun(s0, ops[..i]).0.now, window)
  {
    var s0 := PlayState(MockState(totalSats, 0, map[]), window, 0, map[]);
    hide PlayRun, WindowEnd, PlayStep;
    PaysIff(PlayRun(s0, ops).0, Withdraw(id), PlayStep(PlayRun(s0, ops).0, Withdraw(id)).1.value);
    WindowFixed(s0, ops);
    i := AssertTraced(s0, ops, id);
  }

  predicate PastEnd(now: u32, openHeight: u32, window: u32) {
    now >= WindowEnd(openHeight, window)
  }

  /** The window is honoured exactly when its end fits 32 bits: otherwise the end wraps, no
      height reaches the true end, and the claim counts as elapsed from the wrapped one on. */
  lemma WindowHonouredIff(openHeight: u32, window: u32)
    ensures (forall now: u32 :: PastEnd(now, openHeight, window) ==> now >= openHeight + window)
      <==> openHeight + window < TWO32
  {
    var end := WindowEnd(openHeight, window);
    if openHeight + window >= TWO32 {
      assert PastEnd(end, openHeight, window) && end < openHeight + window;
    }
  }

  /** The inherited finalization pays without an assert and within an open window. */
  lemma FinalizeIgnoresWindow(s: PlayState, id: Bytes32)
    requires id in s.custody.pending && s.custody.pending[id].amount <= s.custody.total
    ensures PlayStep(s, PlayOp.Finalize(id)).1 ==
      Some(ReserveSpend(id, s.custody.pending[id].operatorId, s.custody.pending[id].amount))
    ensures Status(s, id).Open? ==> Withdrawn(s, id) == (s, Err(WindowOpen))
  {
    hide WindowEnd;
  }

  // ----------------------------------------------------------------- the accounts

  function SubmitsOf(ops: seq<PlayOp>, id: Bytes32): nat {
    if |ops| == 0 then 0 else SubmitsOf(ops[..|ops| - 1], id) + if ops[|ops| - 1].Submit?
      && ops[|ops| - 1].id == id then 1 else 0
  }

  function PaymentsOf(paid: seq<ReserveSpend>, id: Bytes32): nat {
    if |paid| == 0 then 0 else PaymentsOf(paid[..|paid| - 1], id) + if paid[|paid| - 1].claimId == id then 1 else 0
  }

  function Holds(s: PlayState, id: Bytes32): nat {
    if id in s.custody.pending then 1 else 0
  }

  /** Every submission is paid at most once: payments and a live reservation together
      never exceed the submissions. */
  lemma {:induction false} PaidPerSubmission(s: PlayState, ops: seq<PlayOp>, id: Bytes32)
    requires s.custody.pending == map[]
    ensures PaymentsOf(PlayRun(s, ops).1, id) + Holds(PlayRun(s, ops).0, id) <= SubmitsOf(ops, id)
  {
    if |ops| > 0 {
      var init, op := ops[..|ops| - 1], ops[|ops| - 1];
      PaidPerSubmission(s, init, id);
      var (s', paid) := PlayRun(s, init);
      var spend := PlayStep(s', op).1;
      hide PlayRun, Status, Wrap64;
      HoldsAfter(s', op, id);
      if spend.Some? { assert (paid + [spend.value])[..|paid|] == paid; }
    }
  }

  lemma HoldsAfter(s: PlayState, op: PlayOp, id: Bytes32)
    ensures var (s', spend) := PlayStep(s, op);
      Holds(s', id) + (if spend.Some? && spend.value.claimId == id then 1 else 0) <= Holds(s, id)
        + (if op.Submit? && op.id == id then 1 else 0)
  {
    hide Status, Wrap64;
  }

  function Amounts(pending: map<Bytes32, Held>): map<Bytes32, nat> {
    map id | id in pending :: pending[id].amount
  }

  /** What a submission overwrites: the live reservation of the same claim id. */
  function Overwrites(s: PlayState, op: PlayOp): nat {
    if op.Submit? && op.id in s.custody.pending then s.custody.pending[op.id].amount else 0
  }

  function Overwritten(s: PlayState, ops: seq<PlayOp>): nat {
    if |ops| == 0 then 0 else
    Overwritten(s, ops[..|ops| - 1]) + Overwrites(PlayRun(s, ops[..|ops| - 1]).0, ops[|ops| - 1])
  }

  lemma WrapCarries(reserved: u64, before: int, change: int)
    requires reserved == Wrap64(before)
    ensures Wrap64(reserved + change) == Wrap64(before + change)
  {
  }

  lemma ReservedStep(s: PlayState, op: PlayOp, lost: nat)
    requires s.custody.reserved == Wrap64(Total(Amounts(s.custody.pending)) + lost)
    ensures var s' := PlayStep(s, op).0;
      s'.custody.reserved == Wrap64(Total(Amounts(s'.custody.pending)) + lost + Overwrites(s, op))
  {
    var pending := s.custody.pending;
    hide Total, Wrap64, Status, Amounts;
    if op.Submit? {
      OpenedAmounts(pending, op.id, Held(op.operatorId, op.amount));
      WrapCarries(s.custody.reserved, Total(Amounts(pending)) + lost, op.amount);
    } else if (op.Finalize? || op.Reclaim? || op.Disprove? || op.Withdraw?) && op.id in pending {
      ClosedAmounts(pending, op.id);
      WrapCarries(s.custody.reserved, Total(Amounts(pending)) + lost, 0 - pending[op.id].amount);
    }
  }

  lemma OpenedAmounts(pending: map<Bytes32, Held>, id: Bytes32, p: Held)
    ensures Total(Amounts(pending[id := p])) + (if id in pending then pending[id].amount else 0) ==
      Total(Amounts(pending)) + p.amount
  {
    hide Total;
    TotalUpdate(Amounts(pending), id, p.amount);
    assert Amounts(pending[id := p]) == Amounts(pending)[id := p.amount];
  }

  lemma ClosedAmounts(pending: map<Bytes32, Held>, id: Bytes32)
    requires id in pending
    ensures Total(Amounts(pending - {id})) == Total(Amounts(pending)) - pending[id].amount
  {
    hide Total;
    TotalTake(Amounts(pending), id);
    assert Amounts(pending - {id}) == Amounts(pending) - {id};
  }

  /** `reserved_sats` over every run: the sum of the live reservations, plus what was lost
      when a submission reused the id of a live claim, modulo 2^64. */
  lemma {:induction false} ReservedIsLive(s: PlayState, ops: seq<PlayOp>)
    requires s.custody.pending == map[] && s.custody.reserved == 0
    ensures var s' := PlayRun(s, ops).0;
      s'.custody.reserved == Wrap64(Total(Amounts(s'.custody.pending)) + Overwritten(s, ops))
  {
    if |ops| > 0 {
      var init, op := ops[..|ops| - 1], ops[|ops| - 1];
      ReservedIsLive(s, init);
      hide PlayStep, Overwrites, Wrap64;
      ReservedStep(PlayRun(s, init).0, op, Overwritten(s, init));
    } else {
      assert Amounts(s.custody.pending) == map[];
    }
  }

  function CreditedBy(ops: seq<PlayOp>): nat {
    if |ops| == 0 then 0 else CreditedBy(ops[..|ops| - 1]) + if ops[|ops| - 1].Credit? then ops[|ops| - 1].sats else 0
  }

  /** Holdings and payments add up to what was put in. */
  lemma {:induction false} PlayConserved(s: PlayState, ops: seq<PlayOp>)
    requires s.custody.total + CreditedBy(ops) < TWO64
    ensures var (s', paid) := PlayRun(s, ops); s'.custody.total + PaidSum(paid) == s.custody.total + CreditedBy(ops)
  {
    if |ops| > 0 {
      PlayConserved(s, ops[..|ops| - 1]);
      var (s', paid) := PlayRun(s, ops[..|ops| - 1]);
      var (s'', spend) := PlayStep(s', ops[|ops| - 1]);
      hide PlayRun, Status;
      if spend.Some? { assert (paid + [spend.value])[..|paid|] == paid; }
    }
  }
}
