/** A whole cohort in one process: key generation with every participant local, then
    announcements and attestations by any quorum. */
module FrostCohort {
  import opened Options
  import opened Modular
  import opened Secp
  import opened Schnorr
  import opened Lagrange
  import opened Event
  import opened Frost
  import opened FrostKeygen
  import opened FrostSigning

  datatype Cohort = Cohort(n: u16, t: u16, groupPubkey: XOnlyKey, signers: seq<Signer>)

  /** The dealers 1..=k. */
  function Dealers(h: Hashes, n: u16, t: u16, seed: Seed, k: nat): (r: Result<seq<Dealer>, FrostError>)
    requires k <= n
    ensures r.Ok? ==> |r.value| == k
  {
    if k == 0 then Ok([]) else
    var before :- Dealers(h, n, t, seed, k - 1);
    var d :- NewDealer(h, k, n, t, seed);
    Ok(before + [d])
  }

  function Broadcasts(dealers: seq<Dealer>): (r: seq<Round1Package>)
    ensures |r| == |dealers|
  {
    seq<Round1Package>(|dealers|, i requires 0 <= i < |dealers| => Round1(dealers[i]))
  }

  predicate Dealt(dealers: seq<Dealer>) {
    forall i :: 0 <= i < |dealers| ==> |dealers[i].poly| > 0
  }

  /** The shares that the first `k` dealers send to one participant. */
  function SharesTo(dealers: seq<Dealer>, to: Index, k: nat): Result<seq<Round2Share>, FrostError>
    requires k <= |dealers| && Dealt(dealers)
  {
    if k == 0 then Ok([]) else
    var before :- SharesTo(dealers, to, k - 1);
    var share :- Round2(dealers[k - 1], to);
    Ok(before + [share])
  }

  function FinalizedSigner(h: Hashes, n: u16, t: u16, dealers: seq<Dealer>, k: nat): Result<Signer, FrostError>
    requires k < |dealers| && Dealt(dealers)
  {
    var shares :- SharesTo(dealers, dealers[k].index, |dealers|);
    var key :- FinalizeKey(h, dealers[k].index, n, t, Broadcasts(dealers), shares);
    Ok(Signer(key, dealers[k].seed))
  }

  /** The signers of the first `k` dealers. */
  function Signers(h: Hashes, n: u16, t: u16, dealers: seq<Dealer>, k: nat): (r: Result<seq<Signer>, FrostError>)
    requires k <= |dealers| && Dealt(dealers)
    ensures r.Ok? ==> |r.value| == k
  {
    if k == 0 then Ok([]) else
    var before :- Signers(h, n, t, dealers, k - 1);
    var s :- FinalizedSigner(h, n, t, dealers, k - 1);
    Ok(before + [s])
  }

  lemma {:induction false} DealersAre(h: Hashes, n: u16, t: u16, seed: Seed, k: nat)
    requires k <= n && Dealers(h, n, t, seed, k).Ok?
    ensures Dealt(Dealers(h, n, t, seed, k).value)
    ensures forall i :: 0 <= i < k ==> NewDealer(h, i + 1, n, t, seed) == Ok(Dealers(h, n, t, seed, k).value[i])
  {
    hide NewDealer;
    if k > 0 {
      DealersAre(h, n, t, seed, k - 1);
      HasPoly(h, k, n, t, seed);
    }
  }

  lemma HasPoly(h: Hashes, index: u16, n: u16, t: u16, seed: Seed)
    requires NewDealer(h, index, n, t, seed).Ok?
    ensures |NewDealer(h, index, n, t, seed).value.poly| > 0
  {
    hide SignWithNonce;
  }

  /** With no participants the source indexes an empty list of signers. */
  function Keygen(h: Hashes, n: u16, t: u16, seed: Seed): Result<Cohort, FrostError> {
    var dealers :- Dealers(h, n, t, seed, n);
    DealersAre(h, n, t, seed, n);
    var signers :- Signers(h, n, t, dealers, n);
    if n == 0 then Err(Panicked) else
    Ok(Cohort(n, t, signers[0].key.groupPubkey, signers))
  }

  lemma {:induction false} DealersFail(h: Hashes, n: u16, t: u16, seed: Seed, k: nat, m: nat)
    requires k <= m <= n && Dealers(h, n, t, seed, k).Err?
    ensures Dealers(h, n, t, seed, m) == Dealers(h, n, t, seed, k)
  {
    hide NewDealer;
    if k < m { DealersFail(h, n, t, seed, k, m - 1); }
  }

  lemma {:induction false} SharesToFail(dealers: seq<Dealer>, to: Index, k: nat, m: nat)
    requires k <= m <= |dealers| && Dealt(dealers) && SharesTo(dealers, to, k).Err?
    ensures SharesTo(dealers, to, m) == SharesTo(dealers, to, k)
  {
    hide Horner;
    if k < m { SharesToFail(dealers, to, k, m - 1); }
  }

  lemma {:induction false} SignersFail(h: Hashes, n: u16, t: u16, dealers: seq<Dealer>, k: nat, m: nat)
    requires k <= m <= |dealers| && Dealt(dealers) && Signers(h, n, t, dealers, k).Err?
    ensures Signers(h, n, t, dealers, m) == Signers(h, n, t, dealers, k)
  {
    hide FinalizedSigner, Dealt;
    if k < m { SignersFail(h, n, t, dealers, k, m - 1); }
  }

  method CollectShares(dealers: seq<Dealer>, to: Index) returns (r: Result<seq<Round2Share>, FrostError>)
    requires Dealt(dealers)
    ensures r == SharesTo(dealers, to, |dealers|)
  {
    var shares := [];
    for i := 0 to |dealers|
      invariant SharesTo(dealers, to, i) == Ok(shares)
    {
      var value := PolyEval(dealers[i].poly, to);
      if value.None? { SharesToFail(dealers, to, i + 1, |dealers|); return Err(Crypto); }
      shares := shares + [Round2Share(dealers[i].index, to, value.value)];
    }
    r := Ok(shares);
  }

  method RunKeygen(h: Hashes, n: u16, t: u16, seed: Seed) returns (r: Result<Cohort, FrostError>)
    ensures r == Keygen(h, n, t, seed)
  {
    hide FinalizeKey, NewDealer, SharesTo;
    var dealers: seq<Dealer> := [];
    for i := 0 to n
      invariant Dealers(h, n, t, seed, i) == Ok(dealers)
    {
      var d := NewDealer(h, i + 1, n, t, seed);
      if d.Err? { DealersFail(h, n, t, seed, i + 1, n); return Err(d.error); }
      dealers := dealers + [d.value];
    }
    DealersAre(h, n, t, seed, n);
    hide Dealers, Dealt;
    var signers := [];
    for i := 0 to n
      invariant Signers(h, n, t, dealers, i) == Ok(signers)
    {
      var shares := CollectShares(dealers, dealers[i].index);
      if shares.Err? { SignersFail(h, n, t, dealers, i + 1, n); return Err(shares.error); }
      var key := ComputeFinalKey(h, dealers[i].index, n, t, Broadcasts(dealers), shares.value);
      if key.Err? { SignersFail(h, n, t, dealers, i + 1, n); return Err(key.error); }
      signers := signers + [Signer(key.value, dealers[i].seed)];
    }
    if |signers| == 0 { return Err(Panicked); }
    r := Ok(Cohort(n, t, signers[0].key.groupPubkey, signers));
  }

  // --------------------------------------------------------- announce and attest

  function QuorumSigners(c: Cohort, q: seq<u16>): (r: Result<seq<Signer>, FrostError>)
    ensures r.Ok? ==> |r.value| == |q|
  {
    var _ :- CheckQuorum(q, c.n, c.t);
    if exists k :: 0 <= k < |q| && q[k] > |c.signers| then Err(BadQuorum)
    else Ok(seq<Signer>(|q|, k requires 0 <= k < |q| => c.signers[q[k] - 1]))
  }

  function Commitments(h: Hashes, signers: seq<Signer>, ts: Timestamp): (r: seq<NonceCommitment>)
    ensures |r| == |signers|
  {
    seq<NonceCommitment>(|signers|, k requires 0 <= k < |signers| => CommitNonces(h, signers[k], ts))
  }

  function Announce(h: Hashes, c: Cohort, ts: Timestamp, q: seq<u16>): Result<Announcement, FrostError> {
    var signers :- QuorumSigners(c, q);
    AggregateAnnouncement(h, ts, q, Commitments(h, signers, ts))
  }

  /** The partial signatures of the first `k` signers. */
  ghost function PartialsOf(h: Hashes, signers: seq<Signer>, ts: Timestamp, price: nat, q: seq<u16>,
                            cs: seq<NonceCommitment>, k: nat): (r: Result<seq<SigShare>, FrostError>)
    requires IsPrime(N) && k <= |signers|
    ensures r.Ok? ==> |r.value| == k
  {
    if k == 0 then Ok([]) else
    var before :- PartialsOf(h, signers, ts, price, q, cs, k - 1);
    var share :- ShareOf(h, signers[k - 1], ts, price, q, cs);
    Ok(before + [share])
  }

  ghost function Attest(h: Hashes, c: Cohort, ts: Timestamp, price: nat, q: seq<u16>): Result<Attestation, FrostError>
    requires IsPrime(N)
  {
    var signers :- QuorumSigners(c, q);
    var cs := Commitments(h, signers, ts);
    var shares :- PartialsOf(h, signers, ts, price, q, cs, |signers|);
    AggregateAttestation(h, ts, price, q, cs, shares)
  }

  lemma {:induction false} PartialsFail(h: Hashes, signers: seq<Signer>, ts: Timestamp, price: nat, q: seq<u16>,
                                        cs: seq<NonceCommitment>, k: nat, m: nat)
    requires IsPrime(N) && k <= m <= |signers| && PartialsOf(h, signers, ts, price, q, cs, k).Err?
    ensures PartialsOf(h, signers, ts, price, q, cs, m) == PartialsOf(h, signers, ts, price, q, cs, k)
  {
    hide ShareOf, IsPrime;
    if k < m { PartialsFail(h, signers, ts, price, q, cs, k, m - 1); }
  }

  method RunAttest(h: Hashes, c: Cohort, ts: Timestamp, price: nat, q: seq<u16>)
      returns (r: Result<Attestation, FrostError>)
    ensures IsPrime(N) ==> r == Attest(h, c, ts, price, q)
  {
    hide ShareOf, IsPrime, AggregateAttestation, CheckQuorum, Commitments;
    var signers := QuorumSigners(c, q);
    if signers.Err? { return Err(signers.error); }
    var cs := Commitments(h, signers.value, ts);
    var shares := [];
    for k := 0 to |signers.value|
      invariant |shares| == k
      invariant IsPrime(N) ==> PartialsOf(h, signers.value, ts, price, q, cs, k) == Ok(shares)
    {
      var share := ComputeSigShare(h, signers.value[k], ts, price, q, cs);
      if share.Err? {
        if IsPrime(N) { PartialsFail(h, signers.value, ts, price, q, cs, k + 1, |signers.value|); }
        return Err(share.error);
      }
      shares := shares + [share.value];
    }
    r := ComputeAttestation(h, ts, price, q, cs, shares);
  }

  method RunAnnounce(h: Hashes, c: Cohort, ts: Timestamp, q: seq<u16>) returns (r: Result<Announcement, FrostError>)
    ensures r == Announce(h, c, ts, q)
  {
    hide AggregateAnnouncement, CheckQuorum, Commitments;
    var signers := QuorumSigners(c, q);
    if signers.Err? { return Err(signers.error); }
    r := ComputeAnnouncement(h, ts, q, Commitments(h, signers.value, ts));
  }

  // ------------------------------------------------------------------ the theorem

  /** The polynomial that the cohort's dealers committed to together. */
  function CohortPoly(h: Hashes, n: u16, t: u16, seed: Seed): seq<int>
    requires Dealers(h, n, t, seed, n).Ok?
  {
    GroupPoly(Broadcasts(Dealers(h, n, t, seed, n).value), n)
  }

  /** What key generation establishes: signer `j` sits at position `j - 1`, and all hold
      points of one polynomial of at most `t` coefficients under one group key. */
  ghost predicate Keyed(h: Hashes, c: Cohort, poly: seq<int>) {
    && |c.signers| == c.n > 0 && |poly| <= c.t
    && exists odd :: GroupKey(h, c.groupPubkey, odd, poly) && forall k :: 0 <= k < |c.signers| ==>
      SignerKeyed(c, poly, odd, k)
  }

  ghost predicate SignerKeyed(c: Cohort, poly: seq<int>, odd: bool, k: nat)
    requires k < |c.signers|
  {
    c.signers[k].key.index == k + 1 && KeyOn(c.signers[k].key, poly, c.groupPubkey, odd)
  }

  lemma {:induction false} SignersAt(h: Hashes, n: u16, t: u16, dealers: seq<Dealer>, k: nat, i: nat)
    requires i < k <= |dealers| && Dealt(dealers) && Signers(h, n, t, dealers, k).Ok?
    ensures FinalizedSigner(h, n, t, dealers, i) == Ok(Signers(h, n, t, dealers, k).value[i])
  {
    hide FinalizedSigner, Dealt;
    if i < k - 1 { SignersAt(h, n, t, dealers, k - 1, i); }
  }

  lemma DealerFields(h: Hashes, index: u16, n: u16, t: u16, seed: Seed)
    requires NewDealer(h, index, n, t, seed).Ok?
    ensures var d := NewDealer(h, index, n, t, seed).value;
      d.index == index && |d.poly| == |d.commitment| == t
  {
    hide SignWithNonce;
  }

  lemma DealersIndexed(h: Hashes, n: u16, t: u16, seed: Seed)
    requires Dealers(h, n, t, seed, n).Ok?
    ensures Dealt(Dealers(h, n, t, seed, n).value)
    ensures forall i :: 0 <= i < n ==>
      var d := Dealers(h, n, t, seed, n).value[i]; d.index == i + 1 && |d.commitment| == t
  {
    hide Dealers, NewDealer, Dealt;
    DealersAre(h, n, t, seed, n);
    forall i | 0 <= i < n
      ensures var d := Dealers(h, n, t, seed, n).value[i]; d.index == i + 1 && |d.commitment| == t
    {
      DealerFields(h, i + 1, n, t, seed);
    }
  }

  lemma SignerFinalized(h: Hashes, n: u16, t: u16, dealers: seq<Dealer>, k: nat)
    requires k < |dealers| && Dealt(dealers) && FinalizedSigner(h, n, t, dealers, k).Ok?
    ensures var key := FinalizedSigner(h, n, t, dealers, k).value.key;
      && key.index == dealers[k].index && key.n == n && key.t == t
      && Cong(N, key.x, PolyVal(GroupPoly(Broadcasts(dealers), n), key.index))
      && GroupKey(h, key.groupPubkey, key.pkOdd, GroupPoly(Broadcasts(dealers), n))
  {
    hide FinalizeKey, SharesTo, Cong, PolyVal, GroupPoly, GroupKey, Broadcasts, Dealt;
    var shares := SharesTo(dealers, dealers[k].index, |dealers|).value;
    FinalizedKey(h, dealers[k].index, n, t, Broadcasts(dealers), shares);
  }

  /** Every successful key generation leaves a keyed cohort. */
  lemma KeygenKeys(h: Hashes, n: u16, t: u16, seed: Seed)
    requires Keygen(h, n, t, seed).Ok?
    ensures n > 0 && Dealers(h, n, t, seed, n).Ok?
    ensures Keygen(h, n, t, seed).value.n == n && Keygen(h, n, t, seed).value.t == t
    ensures Keyed(h, Keygen(h, n, t, seed).value, CohortPoly(h, n, t, seed))
  {
    var dealers := Dealers(h, n, t, seed, n).value;
    DealersIndexed(h, n, t, seed);
    var c := Keygen(h, n, t, seed).value;
    var poly := CohortPoly(h, n, t, seed);
    hide Dealers, FinalizedSigner, Signers, GroupPoly, GroupKey, Cong, PolyVal, Dealt;
    GroupPolyLength(Broadcasts(dealers), n, t);
    var odd := c.signers[0].key.pkOdd;
    forall k | 0 <= k < n
      ensures SignerKeyed(c, poly, odd, k) && GroupKey(h, c.groupPubkey, odd, poly)
    {
      SignersAt(h, n, t, dealers, n, 0);
      SignersAt(h, n, t, dealers, n, k);
      SignerFinalized(h, n, t, dealers, 0);
      SignerFinalized(h, n, t, dealers, k);
      SameGroupKey(h, c.signers[k].key.groupPubkey, c.signers[k].key.pkOdd, c.groupPubkey, odd, poly);
    }
    assert GroupKey(h, c.groupPubkey, odd, poly) by { assert SignerKeyed(c, poly, odd, 0); }
  }

  lemma {:induction false} FindHonest(h: Hashes, ts: Timestamp, signers: seq<Signer>, k: nat)
    requires k < |signers|
    requires forall i, m :: 0 <= i < m < |signers| ==> signers[i].key.index != signers[m].key.index
    ensures FindCommitment(Commitments(h, signers, ts), signers[k].key.index) == Some(CommitNonces(h, signers[k], ts))
  {
    var cs := Commitments(h, signers, ts);
    assert forall i :: 0 <= i < |cs| ==> cs[i].index == signers[i].key.index;
    if k > 0 {
      FindHonest(h, ts, signers[1..], k - 1);
      assert cs[1..] == Commitments(h, signers[1..], ts);
    }
  }

  lemma {:induction false} FindPartial(ss: seq<SigShare>, k: nat)
    requires k < |ss|
    requires forall i, m :: 0 <= i < m < |ss| ==> ss[i].index != ss[m].index
    ensures FindSigShare(ss, ss[k].index) == Some(ss[k])
  {
    if k > 0 { FindPartial(ss[1..], k - 1); }
  }

  lemma {:induction false} PartialsAt(h: Hashes, signers: seq<Signer>, ts: Timestamp, price: nat, q: seq<u16>,
                                      cs: seq<NonceCommitment>, k: nat, i: nat)
    requires IsPrime(N) && i < k <= |signers| && PartialsOf(h, signers, ts, price, q, cs, k).Ok?
    ensures ShareOf(h, signers[i], ts, price, q, cs) == Ok(PartialsOf(h, signers, ts, price, q, cs, k).value[i])
  {
    hide ShareOf, IsPrime;
    if i < k - 1 { PartialsAt(h, signers, ts, price, q, cs, k - 1, i); }
  }

  lemma ShareIndex(h: Hashes, s: Signer, ts: Timestamp, price: nat, q: seq<u16>, cs: seq<NonceCommitment>)
    requires IsPrime(N) && ShareOf(h, s, ts, price, q, cs).Ok?
    ensures ShareOf(h, s, ts, price, q, cs).value.index == s.key.index
  {
    hide IsPrime, LambdaFor, SharePrefix, Digits, CheckQuorum, Position;
  }

  lemma Seated(h: Hashes, c: Cohort, poly: seq<int>, q: seq<u16>) returns (odd: bool)
    requires Keyed(h, c, poly) && QuorumSigners(c, q).Ok?
    ensures CheckQuorum(q, c.n, c.t).Ok?
    ensures Seats(QuorumSigners(c, q).value, q)
    ensures KeysOn(h, QuorumSigners(c, q).value, poly, c.groupPubkey, odd)
  {
    hide Cong, PolyVal, GroupKey;
    odd :| GroupKey(h, c.groupPubkey, odd, poly) && forall k :: 0 <= k < |c.signers| ==> SignerKeyed(c, poly, odd, k);
    var signers := QuorumSigners(c, q).value;
    CheckedIsQuorum(q, c.n, c.t);
    forall k | 0 <= k < |q|
      ensures signers[k].key.index == q[k] && KeyOn(signers[k].key, poly, c.groupPubkey, odd)
    {
      assert SignerKeyed(c, poly, odd, q[k] - 1);
    }
  }

  lemma SeatedDistinct(signers: seq<Signer>, q: seq<u16>, n: u16, t: u16)
    requires Seats(signers, q) && CheckQuorum(q, n, t).Ok?
    ensures |signers| == |q| >= t
    ensures forall i, m :: 0 <= i < m < |signers| ==> signers[i].key.index != signers[m].key.index
  {
    CheckedIsQuorum(q, n, t);
  }

  lemma AllHonest(h: Hashes, signers: seq<Signer>, ts: Timestamp, price: nat, q: seq<u16>)
    requires IsPrime(N) && Seats(signers, q)
    requires forall i, m :: 0 <= i < m < |signers| ==> signers[i].key.index != signers[m].key.index
    requires PartialsOf(h, signers, ts, price, q, Commitments(h, signers, ts), |signers|).Ok?
    ensures var cs := Commitments(h, signers, ts);
      && HonestCommitments(h, ts, q, signers, cs)
      && HonestShares(h, ts, price, q, signers, cs, PartialsOf(h, signers, ts, price, q, cs, |signers|).value)
  {
    hide IsPrime, ShareOf, FindCommitment, FindSigShare, CommitNonces, PartialsOf, Commitments;
    var cs := Commitments(h, signers, ts);
    var ss := PartialsOf(h, signers, ts, price, q, cs, |signers|).value;
    forall k | 0 <= k < |q|
      ensures FindCommitment(cs, q[k]) == Some(CommitNonces(h, signers[k], ts))
      ensures ShareOf(h, signers[k], ts, price, q, cs) == Ok(ss[k])
      ensures ss[k].index == q[k]
    {
      FindHonest(h, ts, signers, k);
      PartialsAt(h, signers, ts, price, q, cs, |signers|, k);
      ShareIndex(h, signers[k], ts, price, q, cs);
    }
    forall k | 0 <= k < |q|
      ensures FindSigShare(ss, q[k]) == Some(ss[k])
    {
      FindPartial(ss, k);
    }
  }

  /** End to end: whatever the seed, the sizes, the quorum in whatever order and the
      price, when the calls succeed the attestation is twenty BIP-340 signatures under
      the cohort's one key, on the digits of the price and with the nonce points that the
      same quorum's announcement holds. */
  lemma CohortAttests(h: Hashes, c: Cohort, poly: seq<int>, ts: Timestamp, price: nat, q: seq<u16>, i: nat)
    requires IsPrime(N) && Keyed(h, c, poly) && i < NB_DIGITS
    requires Attest(h, c, ts, price, q).Ok?
    ensures Announce(h, c, ts, q).Ok?
    ensures var att := Attest(h, c, ts, price, q).value;
      && att.event == ts && att.price == price && |att.signatures| == NB_DIGITS
      && Verify(h.env, c.groupPubkey, h.digitMsg(Digits(price)[i]), att.signatures[i])
      && att.signatures[i].r == Announce(h, c, ts, q).value.noncePoints[i]
  {
    AttestParts(h, c, ts, price, q);
    AnnounceIs(h, c, ts, q);
    hide *;
    var signers := QuorumSigners(c, q).value;
    var cs := Commitments(h, signers, ts);
    var shares := PartialsOf(h, signers, ts, price, q, cs, |signers|).value;
    var odd := Seated(h, c, poly, q);
    SeatedDistinct(signers, q, c.n, c.t);
    AllHonest(h, signers, ts, price, q);
    KeyedLength(h, c, poly);
    ThresholdSignature(h, ts, price, q, signers, cs, shares, poly, c.groupPubkey, odd, i);
  }

  lemma KeyedLength(h: Hashes, c: Cohort, poly: seq<int>)
    requires Keyed(h, c, poly)
    ensures |poly| <= c.t
  {
  }

  lemma AnnounceIs(h: Hashes, c: Cohort, ts: Timestamp, q: seq<u16>)
    requires QuorumSigners(c, q).Ok?
    ensures Announce(h, c, ts, q) == AggregateAnnouncement(h, ts, q, Commitments(h, QuorumSigners(c, q).value, ts))
  {
  }

  lemma AttestParts(h: Hashes, c: Cohort, ts: Timestamp, price: nat, q: seq<u16>)
    requires IsPrime(N) && Attest(h, c, ts, price, q).Ok?
    ensures QuorumSigners(c, q).Ok?
    ensures var signers := QuorumSigners(c, q).value;
      var cs := Commitments(h, signers, ts);
      && PartialsOf(h, signers, ts, price, q, cs, |signers|).Ok?
      && Attest(h, c, ts, price, q) ==
        AggregateAttestation(h, ts, price, q, cs, PartialsOf(h, signers, ts, price, q, cs, |signers|).value)
  {
    hide IsPrime, QuorumSigners, PartialsOf, AggregateAttestation, Commitments;
  }

  /** A quorum of one is refused by every signer, whatever the threshold: the empty
      product of the Lagrange coefficient has no representation. */
  lemma LoneSignerRefused(h: Hashes, s: Signer, ts: Timestamp, price: nat, q: seq<u16>, cs: seq<NonceCommitment>)
    requires IsPrime(N) && |q| == 1 && q[0] == s.key.index
    requires CheckQuorum(q, s.key.n, s.key.t).Ok?
    ensures ShareOf(h, s, ts, price, q, cs) == Err(QuorumTooSmall)
  {
    var qi: seq<Index> := q;
    LambdaIs(s.key.index, qi);
    assert !HasOther(qi, s.key.index);
    hide IsPrime, LambdaFor, SharePrefix, Digits, CheckQuorum;
  }
}
