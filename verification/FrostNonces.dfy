/** Which nonces a quorum announces: for every member and digit its own pair, and the factor
    that binds the pair to the points of all members. */
module FrostNonces {
  import opened Options
  import opened Modular
  import opened Secp
  import opened Event
  import opened Frost
  import opened FrostKeygen
  import opened FrostSigning
  import opened FrostCohort
  import opened FrostDealers

  /** The points that members with these seeds publish for digit `i`. */
  function Published(h: Hashes, seeds: seq<Seed>, ts: Timestamp, i: nat): (des: seq<DigitCommit>)
    ensures |des| == |seeds|
  {
    seq<DigitCommit>(|seeds|, k requires 0 <= k < |seeds| =>
      (PublicOf(h.hidingNonce(seeds[k], ts, i)), PublicOf(h.bindingNonce(seeds[k], ts, i))))
  }

  /** Member `k`'s nonce for digit `i`: the hiding nonce, and the binding nonce times the
      factor over everyone's points. */
  function MemberNonce(h: Hashes, seeds: seq<Seed>, ts: Timestamp, q: seq<u16>, i: nat, k: nat): int
    requires k < |q| == |seeds|
  {
    var rho := h.bindingFactor(q[k], ts, i, q, Published(h, seeds, ts, i));
    h.hidingNonce(seeds[k], ts, i) + h.bindingNonce(seeds[k], ts, i) * rho
  }

  /** The sum over the first `k` members. */
  function QuorumNonce(h: Hashes, seeds: seq<Seed>, ts: Timestamp, q: seq<u16>, i: nat, k: nat): int
    requires k <= |q| == |seeds|
  {
    if k == 0 then 0 else
    QuorumNonce(h, seeds, ts, q, i, k - 1) + MemberNonce(h, seeds, ts, q, i, k - 1)
  }

  /** The point of `v`. */
  predicate PointAt(x: XBytes, v: int) {
    v % N != 0 && x == OnCurve(XOf(PublicOf(v % N)))
  }

  lemma CongPoint(r: PublicKey, v: int)
    requires Cong(N, r.log, v)
    ensures PointAt(OnCurve(XOf(r)), v)
  {
    hide *;
    CongModEq(N, r.log, v);
    SmallMod(r.log, N);
    assert v % N == r.log;
    PointIs(r, v);
  }

  lemma SmallMod(a: nat, p: pos)
    requires a < p
    ensures a % p == a
  {
  }

  lemma PointIs(r: PublicKey, v: int)
    requires v % N == r.log
    ensures PointAt(OnCurve(XOf(r)), v)
  {
    hide XOf;
  }

  lemma ContributionIs(h: Hashes, seeds: seq<Seed>, ts: Timestamp, q: seq<u16>, i: nat, k: nat)
    requires k < |q| == |seeds|
    ensures Contribution(h, ts, i, q, Published(h, seeds, ts, i), k) == MemberNonce(h, seeds, ts, q, i, k)
  {
    var des := Published(h, seeds, ts, i);
    TimesIs(des[k].1.log, h.bindingFactor(q[k], ts, i, q, des));
  }

  lemma {:induction false} SumIsNonces(h: Hashes, seeds: seq<Seed>, ts: Timestamp, q: seq<u16>, i: nat, k: nat)
    requires k <= |q| == |seeds|
    ensures NonceSum(h, ts, i, q, Published(h, seeds, ts, i), k) == QuorumNonce(h, seeds, ts, q, i, k)
  {
    hide Contribution, MemberNonce, Published;
    if k > 0 {
      SumIsNonces(h, seeds, ts, q, i, k - 1);
      ContributionIs(h, seeds, ts, q, i, k - 1);
    }
  }

  lemma {:induction false} PointsAre(h: Hashes, ts: Timestamp, q: seq<u16>, cs: seq<NonceCommitment>, k: nat, i: nat)
    requires i < k && NoncePoints(h, ts, q, cs, k).Ok?
    ensures QuorumCommitments(q, cs, i).Ok?
    ensures var des := QuorumCommitments(q, cs, i).value;
      && NonceSession(h, ts, i, q, des).Some?
      && NoncePoints(h, ts, q, cs, k).value[i] == OnCurve(XOf(NonceSession(h, ts, i, q, des).value.0))
  {
    hide QuorumCommitments, NonceSession, XOf;
    if i < k - 1 { PointsAre(h, ts, q, cs, k - 1, i); }
  }

  function SeedsOf(signers: seq<Signer>): (seeds: seq<Seed>)
    ensures |seeds| == |signers|
  {
    seq<Seed>(|signers|, k requires 0 <= k < |signers| => signers[k].nonceSeed)
  }

  lemma {:induction false} AllCommitted(q: seq<u16>, cs: seq<NonceCommitment>, i: nat)
    requires forall k :: 0 <= k < |q| ==>
      FindCommitment(cs, q[k]).Some? && i < |FindCommitment(cs, q[k]).value.digits|
    ensures QuorumCommitments(q, cs, i).Ok?
  {
    if |q| > 0 { AllCommitted(q[1..], cs, i); }
  }

  /** Every honest list of commitments holds the published points, in quorum order. */
  lemma HonestArePublished(h: Hashes, ts: Timestamp, q: seq<u16>, signers: seq<Signer>, cs: seq<NonceCommitment>,
                           i: nat)
    requires HonestCommitments(h, ts, q, signers, cs) && i < NB_DIGITS
    ensures |signers| == |q| && QuorumCommitments(q, cs, i) == Ok(Published(h, SeedsOf(signers), ts, i))
  {
    hide QuorumCommitments, CommitNonces, FindCommitment;
    forall k | 0 <= k < |q|
      ensures FindCommitment(cs, q[k]).Some? && i < |FindCommitment(cs, q[k]).value.digits|
      ensures FindCommitment(cs, q[k]).value.digits[i] == Published(h, SeedsOf(signers), ts, i)[k]
    {
      CommittedPair(h, signers[k], ts, i);
    }
    AllCommitted(q, cs, i);
    var des := QuorumCommitments(q, cs, i).value;
    forall k | 0 <= k < |q|
      ensures des[k] == Published(h, SeedsOf(signers), ts, i)[k]
    {
      QuorumCommitmentsAt(q, cs, i, k);
    }
    assert des == Published(h, SeedsOf(signers), ts, i);
  }

  /** The announced point of a digit is that of the sum, over the quorum, of each member's
      hiding nonce for that digit and its binding nonce times its factor. */
  lemma QuorumNonces(h: Hashes, ts: Timestamp, q: seq<u16>, signers: seq<Signer>, cs: seq<NonceCommitment>, i: nat)
    requires HonestCommitments(h, ts, q, signers, cs) && AggregateAnnouncement(h, ts, q, cs).Ok? && i < NB_DIGITS
    ensures |signers| == |q| && |AggregateAnnouncement(h, ts, q, cs).value.noncePoints| == NB_DIGITS
    ensures PointAt(AggregateAnnouncement(h, ts, q, cs).value.noncePoints[i],
                    QuorumNonce(h, SeedsOf(signers), ts, q, i, |q|))
  {
    assert AggregateAnnouncement(h, ts, q, cs).value.noncePoints == NoncePoints(h, ts, q, cs, NB_DIGITS).value;
    hide *;
    PointsAre(h, ts, q, cs, NB_DIGITS, i);
    HonestArePublished(h, ts, q, signers, cs, i);
    var des := Published(h, SeedsOf(signers), ts, i);
    SessionIs(h, ts, i, q, des);
    SumIsNonces(h, SeedsOf(signers), ts, q, i, |q|);
    CongPoint(NonceSession(h, ts, i, q, des).value.0, QuorumNonce(h, SeedsOf(signers), ts, q, i, |q|));
  }

  // ------------------------------------------------------------- from the first seed

  /** The seeds of a quorum's members. */
  function SeatSeeds(h: Hashes, localSeed: Seed, q: seq<Index>): (seeds: seq<Seed>)
    ensures |seeds| == |q|
  {
    seq<Seed>(|q|, k requires 0 <= k < |q| => h.participantSeed(localSeed, q[k]))
  }

  lemma SignersSeeded(h: Hashes, n: u16, t: u16, localSeed: Seed, q: seq<u16>)
    requires Keygen(h, n, t, localSeed).Ok? && QuorumSigners(Keygen(h, n, t, localSeed).value, q).Ok?
    ensures (forall k :: 0 <= k < |q| ==> 0 < q[k])
    ensures SeedsOf(QuorumSigners(Keygen(h, n, t, localSeed).value, q).value) == SeatSeeds(h, localSeed, q)
  {
    KeygenDraws(h, n, t, localSeed);
    var c, poly := Keygen(h, n, t, localSeed).value, CohortPoly(h, n, t, localSeed);
    CheckedIsQuorum(q, c.n, c.t);
    hide Keygen, Dealers, CohortPoly, Cong, GroupKey, DrawnSum;
    var signers := QuorumSigners(c, q).value;
    forall k | 0 <= k < |q|
      ensures signers[k].nonceSeed == h.participantSeed(localSeed, q[k])
    {
      assert Holds(h, n, t, localSeed, poly, q[k] - 1, c.signers[q[k] - 1]);
    }
  }

  lemma CohortHonest(h: Hashes, c: Cohort, poly: seq<int>, ts: Timestamp, q: seq<u16>)
    requires Keyed(h, c, poly) && QuorumSigners(c, q).Ok?
    ensures var signers := QuorumSigners(c, q).value;
      HonestCommitments(h, ts, q, signers, Commitments(h, signers, ts))
  {
    var signers := QuorumSigners(c, q).value;
    var odd := Seated(h, c, poly, q);
    SeatedDistinct(signers, q, c.n, c.t);
    hide Keyed, QuorumSigners, Commitments, CommitNonces, FindCommitment;
    forall k | 0 <= k < |q|
      ensures FindCommitment(Commitments(h, signers, ts), q[k]) == Some(CommitNonces(h, signers[k], ts))
    {
      FindHonest(h, ts, signers, k);
    }
  }

  /** The same from the seed that all participants start from. */
  lemma CohortNonces(h: Hashes, n: u16, t: u16, localSeed: Seed, ts: Timestamp, q: seq<u16>, i: nat)
    requires Keygen(h, n, t, localSeed).Ok? && Announce(h, Keygen(h, n, t, localSeed).value, ts, q).Ok? && i < NB_DIGITS
    ensures forall k :: 0 <= k < |q| ==> 0 < q[k]
    ensures var ann := Announce(h, Keygen(h, n, t, localSeed).value, ts, q).value;
      && |ann.noncePoints| == NB_DIGITS
      && PointAt(ann.noncePoints[i], QuorumNonce(h, SeatSeeds(h, localSeed, q), ts, q, i, |q|))
  {
    var c := Keygen(h, n, t, localSeed).value;
    assert QuorumSigners(c, q).Ok?;
    hide *;
    var signers := QuorumSigners(c, q).value;
    SignersSeeded(h, n, t, localSeed, q);
    KeygenKeys(h, n, t, localSeed);
    CohortHonest(h, c, CohortPoly(h, n, t, localSeed), ts, q);
    AnnounceIs(h, c, ts, q);
    QuorumNonces(h, ts, q, signers, Commitments(h, signers, ts), i);
  }
}
