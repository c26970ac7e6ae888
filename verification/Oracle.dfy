/** The single oracle: nonce points announced ahead, one signature per digit at maturity. */
module Oracle {
  import opened Options
  import opened Secp
  import opened Schnorr
  import opened Event
  import opened Frost
  import opened FrostCohort
  import opened Modular
  import opened Bytes

  /** The oracle's own tagged hashes. */
  datatype OracleHashes = OracleHashes(
    env: Env,
    digitMsg: Digit -> Bytes32,
    key: Seed -> Bytes32,
    nonce: (Seed, Timestamp, nat) -> Bytes32,
    announcementNonce: (Seed, Timestamp) -> Bytes32,
    announcementMsg: (Timestamp, seq<XBytes>) -> Bytes32)

  datatype Oracle = Oracle(sk: Bytes32, seed: Seed, pubkey: XOnlyKey)

  datatype SignedAnnouncement = SignedAnnouncement(body: Announcement, sig: Signature)

  function FromSeed(h: OracleHashes, seed: Seed): Option<Oracle> {
    var d :- FromBytes(h.key(seed));
    Some(Oracle(d, seed, XOf(PublicOf(d))))
  }

  /** The nonce points of the first `k` digits. */
  function PointPrefix(h: OracleHashes, seed: Seed, ts: Timestamp, k: nat): (r: Option<seq<XBytes>>)
    ensures r.Some? ==> |r.value| == k
  {
    if k == 0 then Some([]) else
    var before :- PointPrefix(h, seed, ts, k - 1);
    var x :- NoncePoint(h.nonce(seed, ts, k - 1));
    Some(before + [OnCurve(x)])
  }

  function Announcing(h: OracleHashes, o: Oracle, ts: Timestamp): Option<SignedAnnouncement> {
    var points :- PointPrefix(h, o.seed, ts, NB_DIGITS);
    var sig :- SignWithNonce(h.env, o.sk, h.announcementNonce(o.seed, ts), h.announcementMsg(ts, points));
    Some(SignedAnnouncement(Announcement(ts, points), sig))
  }

  /** The signatures on the first `k` digits. */
  function SignaturePrefix(h: OracleHashes, o: Oracle, ts: Timestamp, ds: seq<Digit>,
                           k: nat): (r: Option<seq<Signature>>)
    requires k <= |ds|
    ensures r.Some? ==> |r.value| == k
  {
    if k == 0 then Some([]) else
    var before :- SignaturePrefix(h, o, ts, ds, k - 1);
    var sig :- SignWithNonce(h.env, o.sk, h.nonce(o.seed, ts, k - 1), h.digitMsg(ds[k - 1]));
    Some(before + [sig])
  }

  function Attesting(h: OracleHashes, o: Oracle, ts: Timestamp, price: nat): Option<Attestation> {
    var sigs :- SignaturePrefix(h, o, ts, Digits(price), NB_DIGITS);
    Some(Attestation(ts, price, sigs))
  }

  lemma {:induction false} PointPrefixFails(h: OracleHashes, seed: Seed, ts: Timestamp, k: nat, n: nat)
    requires k <= n && PointPrefix(h, seed, ts, k).None?
    ensures PointPrefix(h, seed, ts, n).None?
  {
    hide NoncePoint;
    if k < n { PointPrefixFails(h, seed, ts, k, n - 1); }
  }

  lemma {:induction false} SignaturePrefixFails(h: OracleHashes, o: Oracle, ts: Timestamp, ds: seq<Digit>, k: nat,
                                                n: nat)
    requires k <= n <= |ds| && SignaturePrefix(h, o, ts, ds, k).None?
    ensures SignaturePrefix(h, o, ts, ds, n).None?
  {
    hide SignWithNonce;
    if k < n { SignaturePrefixFails(h, o, ts, ds, k, n - 1); }
  }

  method Announce(h: OracleHashes, o: Oracle, ts: Timestamp) returns (r: Option<SignedAnnouncement>)
    ensures r == Announcing(h, o, ts)
  {
    hide SignWithNonce, NoncePoint;
    var points := [];
    for i := 0 to NB_DIGITS
      invariant PointPrefix(h, o.seed, ts, i) == Some(points)
    {
      var x := NoncePoint(h.nonce(o.seed, ts, i));
      if x.None? { PointPrefixFails(h, o.seed, ts, i + 1, NB_DIGITS); return None; }
      points := points + [OnCurve(x.value)];
    }
    var sig := SignWithNonce(h.env, o.sk, h.announcementNonce(o.seed, ts), h.announcementMsg(ts, points));
    if sig.None? { return None; }
    r := Some(SignedAnnouncement(Announcement(ts, points), sig.value));
  }

  method Attest(h: OracleHashes, o: Oracle, ts: Timestamp, price: nat) returns (r: Option<Attestation>)
    ensures r == Attesting(h, o, ts, price)
  {
    hide SignWithNonce, Digits;
    var ds, sigs := Digits(price), [];
    for i := 0 to NB_DIGITS
      invariant SignaturePrefix(h, o, ts, ds, i) == Some(sigs)
    {
      var sig := SignWithNonce(h.env, o.sk, h.nonce(o.seed, ts, i), h.digitMsg(ds[i]));
      if sig.None? { SignaturePrefixFails(h, o, ts, ds, i + 1, NB_DIGITS); return None; }
      sigs := sigs + [sig.value];
    }
    r := Some(Attestation(ts, price, sigs));
  }

  // ------------------------------------------------- what a consumer can rely on

  /** The attestation answers the announcement: one signature a digit, valid under the
      key on the digit of the price, with the announced nonce point. */
  ghost predicate Answers(env: Env, digitMsg: Digit -> Bytes32, px: XOnlyKey, ann: Announcement, att: Attestation) {
    && |ann.noncePoints| == |att.signatures| == NB_DIGITS
    && forall i :: 0 <= i < NB_DIGITS ==> AnswersDigit(env, digitMsg, px, ann, att, i)
  }

  ghost predicate AnswersDigit(env: Env, digitMsg: Digit -> Bytes32, px: XOnlyKey, ann: Announcement, att: Attestation,
                               i: nat)
    requires |ann.noncePoints| == |att.signatures| == NB_DIGITS && i < NB_DIGITS
  {
    && att.signatures[i].r == ann.noncePoints[i]
    && Verify(env, px, digitMsg(Digits(att.price)[i]), att.signatures[i])
  }

  lemma {:induction false} PrefixesAgree(h: OracleHashes, o: Oracle, ts: Timestamp, ds: seq<Digit>, k: nat, i: nat)
    requires i < k <= |ds| && SignaturePrefix(h, o, ts, ds, k).Some?
    ensures PointPrefix(h, o.seed, ts, k).Some?
    ensures 0 < o.sk < N
    ensures var sig := SignaturePrefix(h, o, ts, ds, k).value[i];
      && sig.r == PointPrefix(h, o.seed, ts, k).value[i]
      && Verify(h.env, XOf(PublicOf(o.sk)), h.digitMsg(ds[i]), sig)
  {
    hide SignWithNonce, NoncePoint, Verify, XOf;
    SignedVerifies(h.env, o.sk, h.nonce(o.seed, ts, k - 1), h.digitMsg(ds[k - 1]));
    if i < k - 1 {
      PrefixesAgree(h, o, ts, ds, k - 1, i);
    } else if k > 1 {
      PrefixesAgree(h, o, ts, ds, k - 1, 0);
    }
    SignedOnCurve(h.env, o.sk, h.nonce(o.seed, ts, k - 1), h.digitMsg(ds[k - 1]));
  }

  lemma SignedOnCurve(env: Env, sk: Bytes32, k: Bytes32, msg: Bytes32)
    requires SignWithNonce(env, sk, k, msg).Some?
    ensures SignWithNonce(env, sk, k, msg).value.r.OnCurve?
  {
    hide AddTweak, MulTweak;
  }

  /** The single oracle's attestation answers its announcement, which the oracle signed. */
  lemma OracleAnswers(h: OracleHashes, seed: Seed, ts: Timestamp, price: nat)
    requires FromSeed(h, seed).Some?
    requires Announcing(h, FromSeed(h, seed).value, ts).Some? && Attesting(h, FromSeed(h, seed).value, ts, price).Some?
    ensures var o := FromSeed(h, seed).value;
      var ann := Announcing(h, o, ts).value;
      && ann.body.event == ts == Attesting(h, o, ts, price).value.event
      && Attesting(h, o, ts, price).value.price == price
      && Verify(h.env, o.pubkey, h.announcementMsg(ts, ann.body.noncePoints), ann.sig)
      && Answers(h.env, h.digitMsg, o.pubkey, ann.body, Attesting(h, o, ts, price).value)
  {
    hide SignWithNonce, Verify, XOf, Digits, PointPrefix, SignaturePrefix;
    var o := FromSeed(h, seed).value;
    var ann, att := Announcing(h, o, ts).value, Attesting(h, o, ts, price).value;
    SignedVerifies(h.env, o.sk, h.announcementNonce(seed, ts), h.announcementMsg(ts, ann.body.noncePoints));
    forall i | 0 <= i < NB_DIGITS
      ensures AnswersDigit(h.env, h.digitMsg, o.pubkey, ann.body, att, i)
    {
      PrefixesAgree(h, o, ts, Digits(price), NB_DIGITS, i);
    }
  }

  /** An oracle is made exactly when its seed hashes to a key, and keeps key and seed. */
  lemma FromSeedIff(h: OracleHashes, seed: Seed)
    ensures FromSeed(h, seed).Some? <==> 0 < h.key(seed) < N
    ensures FromSeed(h, seed).Some? ==>
      var o := FromSeed(h, seed).value;
      o.sk == h.key(seed) && o.seed == seed && o.pubkey == XOf(PublicOf(h.key(seed)))
  {
    hide XOf;
  }

  /** `a` and `b` are the same nonce or opposite ones, which sign with one nonce point. */
  predicate OneNonce(a: Bytes32, b: Bytes32) {
    a == b || a + b == N
  }

  lemma OnePoint(a: Bytes32, b: Bytes32)
    requires 0 < a < N && 0 < b < N
    ensures XOf(PublicOf(a)) == XOf(PublicOf(b)) <==> OneNonce(a, b)
  {
    hide XOf;
    SameX(PublicOf(a), PublicOf(b));
  }

  lemma {:induction false} AnnouncedPoint(h: OracleHashes, seed: Seed, ts: Timestamp, k: nat, i: nat)
    requires i < k && PointPrefix(h, seed, ts, k).Some?
    ensures 0 < h.nonce(seed, ts, i) < N
    ensures PointPrefix(h, seed, ts, k).value[i] == OnCurve(XOf(PublicOf(h.nonce(seed, ts, i))))
  {
    hide XOf;
    if i < k - 1 { AnnouncedPoint(h, seed, ts, k - 1, i); }
  }

  /** Which nonces an announcement uses: digit `i` is announced with the point of the nonce
      derived for digit `i`, and the announcement itself is signed with a nonce of its own.
      Its nonce point is that of a digit only when the two hashes give one nonce. */
  lemma AnnouncementNonces(h: OracleHashes, o: Oracle, ts: Timestamp)
    requires Announcing(h, o, ts).Some?
    ensures var ann, own := Announcing(h, o, ts).value, h.announcementNonce(o.seed, ts);
      && ann.body.event == ts && |ann.body.noncePoints| == NB_DIGITS
      && 0 < own < N && ann.sig.r == OnCurve(XOf(PublicOf(own)))
      && forall i :: 0 <= i < NB_DIGITS ==>
        var k := h.nonce(o.seed, ts, i);
        && 0 < k < N && ann.body.noncePoints[i] == OnCurve(XOf(PublicOf(k)))
        && (ann.sig.r == ann.body.noncePoints[i] <==> OneNonce(own, k))
  {
    var ann, own := Announcing(h, o, ts).value, h.announcementNonce(o.seed, ts);
    assert ann.body == Announcement(ts, PointPrefix(h, o.seed, ts, NB_DIGITS).value);
    hide XOf, SignWithNonce, PointPrefix, OneNonce, Verify, Challenge;
    var msg := h.announcementMsg(ts, ann.body.noncePoints);
    SignedVerifies(h.env, o.sk, own, msg);
    SignedOnCurve(h.env, o.sk, own, msg);
    forall i | 0 <= i < NB_DIGITS
      ensures var k := h.nonce(o.seed, ts, i);
        && 0 < k < N && ann.body.noncePoints[i] == OnCurve(XOf(PublicOf(k)))
        && (ann.sig.r == ann.body.noncePoints[i] <==> OneNonce(own, k))
    {
      AnnouncedPoint(h, o.seed, ts, NB_DIGITS, i);
      OnePoint(own, h.nonce(o.seed, ts, i));
    }
  }

  /** Signing goes through: key and nonce are scalars, the challenge is not zero, and neither
      is the signature's scalar. */
  ghost predicate CanSign(env: Env, sk: Bytes32, k: Bytes32, msg: Bytes32) {
    && 0 < sk < N && 0 < k < N
    && var e := Challenge(env, XOf(PublicOf(k)), XOf(PublicOf(sk)), msg);
    && e != 0
    && !Cong(N, EvenSecret(env, k) + e * EvenSecret(env, sk), 0)
  }

  lemma CanSignIff(env: Env, sk: Bytes32, k: Bytes32, msg: Bytes32)
    requires IsPrime(N)
    ensures SignWithNonce(env, sk, k, msg).Some? <==> CanSign(env, sk, k, msg)
  {
    SignFails(env, sk, k, msg);
    hide SignWithNonce, Challenge, XOf, EvenSecret, Cong, IsPrime;
  }

  lemma {:induction false} PointsIff(h: OracleHashes, seed: Seed, ts: Timestamp, k: nat)
    ensures PointPrefix(h, seed, ts, k).Some? <==> forall i :: 0 <= i < k ==> 0 < h.nonce(seed, ts, i) < N
  {
    hide XOf;
    if k > 0 { PointsIff(h, seed, ts, k - 1); }
  }

  lemma {:induction false} SignaturesIff(h: OracleHashes, o: Oracle, ts: Timestamp, ds: seq<Digit>, k: nat)
    requires IsPrime(N) && k <= |ds|
    ensures SignaturePrefix(h, o, ts, ds, k).Some? <==>
      forall i :: 0 <= i < k ==> CanSign(h.env, o.sk, h.nonce(o.seed, ts, i), h.digitMsg(ds[i]))
  {
    hide SignWithNonce, CanSign, IsPrime;
    if k > 0 {
      SignaturesIff(h, o, ts, ds, k - 1);
      CanSignIff(h.env, o.sk, h.nonce(o.seed, ts, k - 1), h.digitMsg(ds[k - 1]));
    }
  }

  /** The points of all digits' nonces. */
  function DigitPoints(h: OracleHashes, seed: Seed, ts: Timestamp): (points: seq<XBytes>)
    requires forall i :: 0 <= i < NB_DIGITS ==> 0 < h.nonce(seed, ts, i) < N
    ensures |points| == NB_DIGITS
  {
    seq<XBytes>(NB_DIGITS, i requires 0 <= i < NB_DIGITS => OnCurve(XOf(PublicOf(h.nonce(seed, ts, i)))))
  }

  /** When an oracle can announce an event and attest a price: exactly when all its nonces are
      scalars and each of its signatures can be made. */
  lemma OracleIff(h: OracleHashes, o: Oracle, ts: Timestamp, price: nat)
    requires IsPrime(N)
    ensures Announcing(h, o, ts).Some? <==>
      && (forall i :: 0 <= i < NB_DIGITS ==> 0 < h.nonce(o.seed, ts, i) < N)
      && CanSign(h.env, o.sk, h.announcementNonce(o.seed, ts),
                 h.announcementMsg(ts, DigitPoints(h, o.seed, ts)))
    ensures Attesting(h, o, ts, price).Some? <==>
      forall i :: 0 <= i < NB_DIGITS ==>
        CanSign(h.env, o.sk, h.nonce(o.seed, ts, i), h.digitMsg(Digits(price)[i]))
  {
    hide SignWithNonce, CanSign, IsPrime, PointPrefix, SignaturePrefix, XOf, Digits;
    SignaturesIff(h, o, ts, Digits(price), NB_DIGITS);
    PointsIff(h, o.seed, ts, NB_DIGITS);
    if PointPrefix(h, o.seed, ts, NB_DIGITS).Some? {
      var points := PointPrefix(h, o.seed, ts, NB_DIGITS).value;
      forall i | 0 <= i < NB_DIGITS
        ensures points[i] == DigitPoints(h, o.seed, ts)[i]
      {
        AnnouncedPoint(h, o.seed, ts, NB_DIGITS, i);
      }
      assert points == DigitPoints(h, o.seed, ts);
      CanSignIff(h.env, o.sk, h.announcementNonce(o.seed, ts), h.announcementMsg(ts, points));
    }
  }

  /** A cohort's attestation answers the announcement of the same quorum. */
  lemma CohortAnswers(h: Hashes, c: Cohort, poly: seq<int>, ts: Timestamp, price: nat, q: seq<u16>)
    requires IsPrime(N) && Keyed(h, c, poly)
    requires FrostCohort.Attest(h, c, ts, price, q).Ok?
    ensures FrostCohort.Announce(h, c, ts, q).Ok?
    ensures Answers(h.env, h.digitMsg, c.groupPubkey, FrostCohort.Announce(h, c, ts, q).value,
                    FrostCohort.Attest(h, c, ts, price, q).value)
  {
    hide Verify, IsPrime, Digits, Keyed, FrostCohort.Attest, FrostCohort.Announce;
    CohortAttests(h, c, poly, ts, price, q, 0);
    var ann, att := FrostCohort.Announce(h, c, ts, q).value, FrostCohort.Attest(h, c, ts, price, q).value;
    AnnouncementSize(h, c, ts, q);
    forall i | 0 <= i < NB_DIGITS
      ensures AnswersDigit(h.env, h.digitMsg, c.groupPubkey, ann, att, i)
    {
      CohortAttests(h, c, poly, ts, price, q, i);
    }
  }

  lemma AnnouncementSize(h: Hashes, c: Cohort, ts: Timestamp, q: seq<u16>)
    requires FrostCohort.Announce(h, c, ts, q).Ok?
    ensures |FrostCohort.Announce(h, c, ts, q).value.noncePoints| == NB_DIGITS
  {
    hide NoncePoints, QuorumSigners, Commitments;
  }
}
