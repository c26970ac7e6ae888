/** Contract buckets: digit-prefix ranges of the price, the point each one is encrypted
    to, and the scalar that an attestation reveals for the one that happened. */
module Cet {
  import opened Options
  import opened Modular
  import opened Bytes
  import opened Secp
  import opened Schnorr
  import opened Event
  import opened Frost
  import opened FrostCohort
  import opened Oracle

  datatype CetBucket = CetBucket(index: nat, priceLo: nat, priceHi: nat, userSats: u64)

  /** A number of prefix digits as the source passes it, and the sensible ones, which only
      the schedule asserts. */
  type U8 = m: nat | m < 256
  type Prefix = m: U8 | 1 <= m <= NB_DIGITS witness 1

  datatype CetError = Failed | Panicked

  function Width(m: Prefix): pos {
    Pow2(NB_DIGITS - m)
  }

  function BucketSchedule(m: Prefix, userSatsAt: nat -> u64): (r: seq<CetBucket>)
    ensures |r| == Pow2(m)
  {
    seq<CetBucket>(Pow2(m), index requires 0 <= index < Pow2(m) =>
      CetBucket(index, index * Width(m), index * Width(m) + Width(m), userSatsAt(index * Width(m) + Width(m) / 2)))
  }

  function Shifted(v: nat, w: pos): nat {
    v / w
  }

  /** A 32-bit shift uses its distance modulo 32. */
  function Distance(d: int): nat {
    d % 32
  }

  lemma DistanceIs(d: nat)
    requires d < 32
    ensures Distance(d) == d
  {
  }

  function BucketOf(price: nat, m: U8): nat {
    Shifted(Clamp(price), Pow2(Distance(NB_DIGITS - m)))
  }

  predicate Covers(b: CetBucket, price: nat) {
    b.priceLo <= price < b.priceHi
  }

  /** Halfway up a bucket. */
  function Middle(b: CetBucket): int {
    b.priceLo + (b.priceHi - b.priceLo) / 2
  }

  /** The buckets tile [0, 2^20) in index order, each pays what its midpoint is worth, and the
      one that holds a price (clamped at the largest outcome) is the one `bucket_of` names. */
  lemma BucketsPartition(m: Prefix, userSatsAt: nat -> u64, price: nat)
    ensures var s := BucketSchedule(m, userSatsAt);
      && s[0].priceLo == 0 && s[|s| - 1].priceHi == 0x100000
      && (forall i :: 0 < i < |s| ==> s[i].priceLo == s[i - 1].priceHi)
      && BucketOf(price, m) < |s|
      && forall i :: 0 <= i < |s| ==>
        && s[i].index == i && (Covers(s[i], Clamp(price)) <==> i == BucketOf(price, m))
        && s[i].userSats == userSatsAt(Middle(s[i]))
  {
    var s, w, v := BucketSchedule(m, userSatsAt), Width(m), Clamp(price);
    DistanceIs(NB_DIGITS - m);
    Pow2Add(m, NB_DIGITS - m);
    Pow2Of20();
    hide Pow2, Clamp;
    var count := Pow2(m);
    assert count * w == MAX_OUTCOME + 1;
    LastBucket(count, w);
    InRange(v, w, count);
    forall i | 0 < i < |s|
      ensures s[i].priceLo == s[i - 1].priceHi
    {
      NextMultiple(i, w);
    }
    forall i | 0 <= i < |s|
      ensures s[i].index == i && (Covers(s[i], v) <==> i == v / w) && s[i].userSats == userSatsAt(Middle(s[i]))
    {
      InBucket(v, w, i);
    }
  }

  lemma LastBucket(count: pos, w: int)
    ensures (count - 1) * w + w == count * w
  {
  }

  lemma NextMultiple(i: int, w: int)
    ensures i * w == (i - 1) * w + w
  {
  }

  lemma InRange(v: nat, w: pos, count: pos)
    requires v < count * w
    ensures v / w < count
  {
    var q, r := v / w, v % w;
    assert v == q * w + r;
    assert (q - count) * w == v - r - count * w;
    if q - count >= 1 { MulAtLeast(q - count, w); }
  }

  lemma InBucket(v: nat, w: pos, i: int)
    ensures i * w <= v < i * w + w <==> i == v / w
  {
    if i * w <= v < i * w + w { DivUnique(v, w, i, v - i * w); }
  }

  // ------------------------------------------------------- the bucket's adaptor point

  /** Digit `i` of the bucket's `m`-digit index, most significant first. */
  function PrefixDigit(m: nat, bucket: nat, i: nat): Digit
    requires i < m
  {
    Shifted(bucket, Pow2(Distance(m - 1 - i))) % 2
  }

  /** The sum of the anticipation points of the first `k` prefix digits. */
  function PointSum(env: Env, digitMsg: Digit -> Bytes32, px: XOnlyKey, points: seq<XBytes>, m: nat, bucket: nat,
                    k: nat): Option<Option<PublicKey>>
    requires k <= m <= |points|
  {
    if k == 0 then Some(None) else
    var acc :- PointSum(env, digitMsg, px, points, m, bucket, k - 1);
    if points[k - 1].OffCurve? then None else
    var point :- AnticipationPoint(env, points[k - 1].key, px, digitMsg(PrefixDigit(m, bucket, k - 1)));
    var acc' :- CombineInto(acc, point);
    Some(Some(acc'))
  }

  /** With no digits at all the source panics, unless the key is refused first. */
  function AdaptorPoint(env: Env, digitMsg: Digit -> Bytes32, ann: Announcement, px: XBytes, m: U8,
                        bucket: nat): Result<PublicKey, CetError> {
    if px.OffCurve? || |ann.noncePoints| < m then Err(Failed) else
    match PointSum(env, digitMsg, px.key, ann.noncePoints, m, bucket, m)
    case None => Err(Failed)
    case Some(acc) => if acc.Some? then Ok(acc.value) else Err(CetError.Panicked)
  }

  lemma {:induction false} PointSumFails(env: Env, digitMsg: Digit -> Bytes32, px: XOnlyKey, points: seq<XBytes>,
                                         m: nat, bucket: nat, k: nat, n: nat)
    requires k <= n <= m <= |points| && PointSum(env, digitMsg, px, points, m, bucket, k).None?
    ensures PointSum(env, digitMsg, px, points, m, bucket, n).None?
  {
    hide AnticipationPoint, CombineInto, PrefixDigit;
    if k < n { PointSumFails(env, digitMsg, px, points, m, bucket, k, n - 1); }
  }

  method BucketAdaptorPoint(env: Env, digitMsg: Digit -> Bytes32, ann: Announcement, px: XBytes, m: U8, bucket: nat)
      returns (r: Result<PublicKey, CetError>)
    ensures r == AdaptorPoint(env, digitMsg, ann, px, m, bucket)
  {
    hide AnticipationPoint, Combine, PrefixDigit;
    if px.OffCurve? { return Err(Failed); }
    var points := ann.noncePoints;
    if |points| < m { return Err(Failed); }
    var acc: Option<PublicKey> := None;
    for i := 0 to m
      invariant PointSum(env, digitMsg, px.key, points, m, bucket, i) == Some(acc)
    {
      var digit := PrefixDigit(m, bucket, i);
      if points[i].OffCurve? { PointSumFails(env, digitMsg, px.key, points, m, bucket, i + 1, m); return Err(Failed); }
      var point := AnticipationPoint(env, points[i].key, px.key, digitMsg(digit));
      if point.None? { PointSumFails(env, digitMsg, px.key, points, m, bucket, i + 1, m); return Err(Failed); }
      acc := CombineInto(acc, point.value);
      if acc.None? { PointSumFails(env, digitMsg, px.key, points, m, bucket, i + 1, m); return Err(Failed); }
    }
    r := if acc.Some? then Ok(acc.value) else Err(CetError.Panicked);
  }

  // --------------------------------------------------------------- the bucket's secret

  /** The sum of the first `k` signature scalars. */
  function ScalarSum(sigs: seq<Signature>, k: nat): Option<Option<SecretKey>>
    requires k <= |sigs|
  {
    if k == 0 then Some(None) else
    var acc :- ScalarSum(sigs, k - 1);
    var s :- FromBytes(sigs[k - 1].s);
    var acc' :- AddInto(acc, s);
    Some(Some(acc'))
  }

  /** There are twenty digits to take, however many are asked for; with none the source
      panics. */
  function Secret(att: Attestation, m: U8, bucket: nat): Result<SecretKey, CetError> {
    if BucketOf(att.price, m) != bucket || |att.signatures| < m then Err(Failed) else
    match ScalarSum(att.signatures, if m < NB_DIGITS then m else NB_DIGITS)
    case None => Err(Failed)
    case Some(acc) => if acc.Some? then Ok(acc.value) else Err(CetError.Panicked)
  }

  lemma {:induction false} ScalarSumFails(sigs: seq<Signature>, k: nat, n: nat)
    requires k <= n <= |sigs| && ScalarSum(sigs, k).None?
    ensures ScalarSum(sigs, n).None?
  {
    hide AddInto;
    if k < n { ScalarSumFails(sigs, k, n - 1); }
  }

  method BucketSecret(att: Attestation, m: U8, bucket: nat) returns (r: Result<SecretKey, CetError>)
    ensures r == Secret(att, m, bucket)
  {
    hide AddTweak, BucketOf;
    if BucketOf(att.price, m) != bucket { return Err(Failed); }
    if |att.signatures| < m { return Err(Failed); }
    var acc: Option<SecretKey> := None;
    var count := if m < NB_DIGITS then m else NB_DIGITS;
    for i := 0 to count
      invariant ScalarSum(att.signatures, i) == Some(acc)
    {
      var s := FromBytes(att.signatures[i].s);
      if s.None? { ScalarSumFails(att.signatures, i + 1, count); return Err(Failed); }
      acc := AddInto(acc, s.value);
      if acc.None? { ScalarSumFails(att.signatures, i + 1, count); return Err(Failed); }
    }
    r := if acc.Some? then Ok(acc.value) else Err(CetError.Panicked);
  }

  // ------------------------------------------------------------- the contract of a DLC

  /** The digits of the price that the bucket fixes are the digits of its index. */
  lemma PrefixOfPrice(price: nat, m: Prefix, i: nat)
    requires i < m
    ensures PrefixDigit(m, BucketOf(price, m), i) == Digits(price)[i]
  {
    DistanceIs(NB_DIGITS - m);
    DistanceIs(m - 1 - i);
    DigitAt(Clamp(price), NB_DIGITS, i);
    DivDiv(Clamp(price), Width(m), Pow2(m - 1 - i));
    Pow2Add(NB_DIGITS - m, m - 1 - i);
  }

  /** All of the first `k` challenges are nonzero. */
  ghost predicate Challenged(env: Env, digitMsg: Digit -> Bytes32, px: XOnlyKey, ann: Announcement, price: nat, k: nat)
    requires k <= |ann.noncePoints| && k <= NB_DIGITS
  {
    forall i :: 0 <= i < k ==> ChallengedAt(env, digitMsg, px, ann, price, i)
  }

  ghost predicate ChallengedAt(env: Env, digitMsg: Digit -> Bytes32, px: XOnlyKey, ann: Announcement, price: nat,
                               i: nat)
    requires i < |ann.noncePoints| && i < NB_DIGITS
  {
    && ann.noncePoints[i].OnCurve?
    && Challenge(env, ann.noncePoints[i].key, px, digitMsg(Digits(price)[i])) != 0
  }

  /** One digit: the anticipated point is the revealed scalar's. */
  lemma DigitPoint(env: Env, digitMsg: Digit -> Bytes32, px: XOnlyKey, ann: Announcement, att: Attestation, i: nat)
    requires IsPrime(N) && Answers(env, digitMsg, px, ann, att) && i < NB_DIGITS
    ensures ann.noncePoints[i].OnCurve? && att.signatures[i].s < N
    ensures AnticipationPoint(env, ann.noncePoints[i].key, px, digitMsg(Digits(att.price)[i])) ==
      if ChallengedAt(env, digitMsg, px, ann, att.price, i) && att.signatures[i].s != 0
      then Some(PublicOf(att.signatures[i].s)) else None
  {
    assert AnswersDigit(env, digitMsg, px, ann, att, i);
    var rx, s, msg := ann.noncePoints[i].key, att.signatures[i].s, digitMsg(Digits(att.price)[i]);
    assert att.signatures[i] == Signature(OnCurve(rx), s);
    hide IsPrime, Digits, Challenge, AnticipationPoint, Cong, LiftEven, XOf, IsOdd, Reduce, Answers;
    var a := AnticipationPoint(env, rx, px, msg);
    if s != 0 { AnticipationIffVerify(env, rx, px, msg, s); }
    if a.Some? {
      AnticipationIffVerify(env, rx, px, msg, a.value.log);
      assert a == Some(PublicOf(a.value.log));
      SignatureUnique(env, px, msg, rx, s, a.value.log);
    }
  }

  lemma SignatureUnique(env: Env, px: XOnlyKey, msg: Bytes32, rx: XOnlyKey, s: Scalar, s': Scalar)
    requires Verify(env, px, msg, Signature(OnCurve(rx), s)) && Verify(env, px, msg, Signature(OnCurve(rx), s'))
    ensures s == s'
  {
    hide *;
    VerifyEquation(env, px, msg, rx, s);
    VerifyEquation(env, px, msg, rx, s');
    var v := LiftEven(env, rx).log + Challenge(env, rx, px, msg) * LiftEven(env, px).log;
    CongSym(N, s', v);
    CongTrans(N, s, v, s');
    CongUnique(N, s, s');
  }

  /** The point sum and the scalar sum move in step. */
  ghost predicate InStep(p: Option<Option<PublicKey>>, s: Option<Option<SecretKey>>, challenged: bool) {
    && (p.Some? <==> s.Some? && challenged)
    && (p.Some? ==> p.value.Some? == s.value.Some?)
    && (p.Some? && p.value.Some? ==> p.value.value.log == s.value.value)
  }

  lemma CombineMatches(p: Option<PublicKey>, s: Option<SecretKey>, t: SecretKey)
    requires p.Some? == s.Some? && (p.Some? ==> p.value.log == s.value)
    ensures CombineInto(p, PublicOf(t)).Some? == AddInto(s, t).Some?
    ensures AddInto(s, t).Some? ==> CombineInto(p, PublicOf(t)).value.log == AddInto(s, t).value
  {
    hide Cong, Reduce;
  }

  lemma {:induction false} SumsInStep(env: Env, digitMsg: Digit -> Bytes32, px: XOnlyKey, ann: Announcement,
                                      att: Attestation, m: Prefix, k: nat)
    requires IsPrime(N) && Answers(env, digitMsg, px, ann, att) && k <= m
    ensures InStep(PointSum(env, digitMsg, px, ann.noncePoints, m, BucketOf(att.price, m), k),
                   ScalarSum(att.signatures, k),
                   Challenged(env, digitMsg, px, ann, att.price, k))
  {
    if k > 0 {
      SumsInStep(env, digitMsg, px, ann, att, m, k - 1);
      DigitPoint(env, digitMsg, px, ann, att, k - 1);
      PrefixOfPrice(att.price, m, k - 1);
      hide Answers, IsPrime, AnticipationPoint, CombineInto, AddInto, ChallengedAt, BucketOf, PrefixDigit, Digits;
      var p, s := PointSum(env, digitMsg, px, ann.noncePoints, m, BucketOf(att.price, m), k - 1),
        ScalarSum(att.signatures, k - 1);
      if p.Some? && att.signatures[k - 1].s != 0 {
        CombineMatches(p.value, s.value, att.signatures[k - 1].s);
      }
      ChallengedStep(env, digitMsg, px, ann, att.price, k);
    }
  }

  lemma ChallengedStep(env: Env, digitMsg: Digit -> Bytes32, px: XOnlyKey, ann: Announcement, price: nat, k: nat)
    requires 0 < k <= |ann.noncePoints| && k <= NB_DIGITS
    ensures Challenged(env, digitMsg, px, ann, price, k) <==>
      Challenged(env, digitMsg, px, ann, price, k - 1) && ChallengedAt(env, digitMsg, px, ann, price, k - 1)
  {
    hide ChallengedAt;
  }

  /** The contract between announcement and attestation, for every price and prefix
      width: for the bucket of the price the attestation's secret is the discrete
      logarithm of the point that was computed from the announcement, and the point can
      be computed exactly when the secret can and no challenge is zero; every other
      bucket is refused a secret. */
  lemma BucketContract(env: Env, digitMsg: Digit -> Bytes32, px: XOnlyKey, ann: Announcement, att: Attestation,
                       m: Prefix, bucket: nat)
    requires IsPrime(N) && Answers(env, digitMsg, px, ann, att)
    ensures Contract(env, digitMsg, px, ann, att, m, bucket)
  {
    if bucket == BucketOf(att.price, m) {
      SumsInStep(env, digitMsg, px, ann, att, m, m);
      hide Answers, IsPrime, AnticipationPoint, CombineInto, AddInto, Challenged, BucketOf, PrefixDigit, Digits;
      SumStarted(env, digitMsg, px, ann.noncePoints, m, bucket);
      ScalarsStarted(att.signatures, m);
    }
  }

  ghost predicate Contract(env: Env, digitMsg: Digit -> Bytes32, px: XOnlyKey, ann: Announcement, att: Attestation,
                           m: Prefix, bucket: nat)
  {
    var point := AdaptorPoint(env, digitMsg, ann, OnCurve(px), m, bucket);
    var secret := Secret(att, m, bucket);
    && (bucket != BucketOf(att.price, m) ==> secret == Err(Failed))
    && (bucket == BucketOf(att.price, m) ==>
         && m <= |ann.noncePoints|
         && (point.Ok? <==> secret.Ok? && Challenged(env, digitMsg, px, ann, att.price, m))
         && (point.Ok? ==> point == Ok(PublicOf(secret.value))))
  }

  /** The single oracle, from its seed: every announcement and attestation that it manages to
      make meet the contract. */
  lemma OracleContract(h: OracleHashes, seed: Seed, ts: Timestamp, price: nat, m: Prefix, bucket: nat)
    requires IsPrime(N) && FromSeed(h, seed).Some?
    requires Announcing(h, FromSeed(h, seed).value, ts).Some? && Attesting(h, FromSeed(h, seed).value, ts, price).Some?
    ensures var o := FromSeed(h, seed).value;
      Contract(h.env, h.digitMsg, o.pubkey, Announcing(h, o, ts).value.body, Attesting(h, o, ts, price).value, m,
               bucket)
  {
    hide *;
    var o := FromSeed(h, seed).value;
    OracleAnswers(h, seed, ts, price);
    BucketContract(h.env, h.digitMsg, o.pubkey, Announcing(h, o, ts).value.body, Attesting(h, o, ts, price).value, m,
                   bucket);
  }

  /** A cohort, from its key generation: the same for every quorum that manages to attest. */
  lemma CohortContract(h: Hashes, n: u16, t: u16, seed: Seed, ts: Timestamp, price: nat, q: seq<u16>, m: Prefix,
                       bucket: nat)
    requires IsPrime(N) && Keygen(h, n, t, seed).Ok?
      && FrostCohort.Attest(h, Keygen(h, n, t, seed).value, ts, price, q).Ok?
    ensures var c := Keygen(h, n, t, seed).value;
      && FrostCohort.Announce(h, c, ts, q).Ok?
      && Contract(h.env, h.digitMsg, c.groupPubkey, FrostCohort.Announce(h, c, ts, q).value,
                  FrostCohort.Attest(h, c, ts, price, q).value, m, bucket)
  {
    hide *;
    KeygenKeys(h, n, t, seed);
    var c := Keygen(h, n, t, seed).value;
    CohortAnswers(h, c, CohortPoly(h, n, t, seed), ts, price, q);
    BucketContract(h.env, h.digitMsg, c.groupPubkey, FrostCohort.Announce(h, c, ts, q).value,
                   FrostCohort.Attest(h, c, ts, price, q).value, m, bucket);
  }

  lemma ScalarsStarted(sigs: seq<Signature>, m: Prefix)
    requires m <= |sigs|
    ensures var s := ScalarSum(sigs, m); s.Some? ==> s.value.Some?
  {
    hide AddInto;
  }

  lemma SumStarted(env: Env, digitMsg: Digit -> Bytes32, px: XOnlyKey, points: seq<XBytes>, m: Prefix, bucket: nat)
    requires m <= |points|
    ensures var p := PointSum(env, digitMsg, px, points, m, bucket, m); p.Some? ==> p.value.Some?
  {
    hide AnticipationPoint, CombineInto, PrefixDigit;
  }
}
