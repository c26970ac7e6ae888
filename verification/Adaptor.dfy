/** Schnorr adaptor signatures: a pre-signature encrypted to a point, completed by the
    point's discrete logarithm, which the completed signature gives away. */
module Adaptor {
  import opened Options
  import opened Modular
  import opened Bytes
  import opened Secp
  import opened Schnorr

  /** 33 bytes where a compressed point is expected. */
  datatype PointBytes = Point(point: PublicKey) | NotAPoint(code: nat)

  datatype AdaptorSig = AdaptorSig(combinedRx: XBytes, rPoint: PointBytes, sA: Bytes32, nonceCounter: nat)

  const ATTEMPTS: nat := 256

  type NonceHash = (Bytes32, nat) -> Bytes32

  /** The candidate with number `i` is usable: a scalar whose point, added to `t`, has
      even Y. */
  datatype Candidate = Skip | Fail | Use(k: SecretKey, combined: PublicKey)

  function TryNonce(env: Env, hash: NonceHash, base: Bytes32, t: PublicKey, i: nat): Candidate {
    var k := FromBytes(hash(base, i));
    if k.None? then Skip else
    var combined := Combine(PublicOf(k.value), t);
    if combined.None? then Fail else
    if IsOdd(env, combined.value) then Skip else Use(k.value, combined.value)
  }

  /** The pre-signature under the even-Y secret `d`, once the nonce is chosen. */
  function PresignWith(env: Env, d: SecretKey, px: XOnlyKey, msg: Bytes32, k: SecretKey, combined: PublicKey,
                       i: nat): Option<AdaptorSig> {
    var e := Challenge(env, XOf(combined), px, msg);
    var ed :- MulTweak(d, e);
    var s :- AddTweak(k, ed);
    Some(AdaptorSig(OnCurve(XOf(combined)), Point(PublicOf(k)), s, i))
  }

  function PresignFrom(env: Env, hash: NonceHash, d: SecretKey, px: XOnlyKey, base: Bytes32, msg: Bytes32,
                       t: PublicKey, i: nat): Option<AdaptorSig>
    requires i <= ATTEMPTS
    decreases ATTEMPTS - i
  {
    if i == ATTEMPTS then None else
    match TryNonce(env, hash, base, t, i)
    case Skip => PresignFrom(env, hash, d, px, base, msg, t, i + 1)
    case Fail => None
    case Use(k, combined) => PresignWith(env, d, px, msg, k, combined, i)
  }

  function Presigned(env: Env, hash: NonceHash, sk: Bytes32, base: Bytes32, msg: Bytes32,
                     t: PublicKey): Option<AdaptorSig> {
    var d :- FromBytes(sk);
    PresignFrom(env, hash, EvenSecret(env, d), XOf(PublicOf(d)), base, msg, t, 0)
  }

  method Presign(env: Env, hash: NonceHash, sk: Bytes32, base: Bytes32, msg: Bytes32, t: PublicKey)
      returns (r: Option<AdaptorSig>)
    ensures r == Presigned(env, hash, sk, base, msg, t)
  {
    hide AddTweak, MulTweak, Combine, IsOdd, XOf, Negate, Challenge;
    var d := FromBytes(sk);
    if d.None? { return None; }
    var px, even := XOf(PublicOf(d.value)), EvenSecret(env, d.value);
    for i := 0 to ATTEMPTS
      invariant Presigned(env, hash, sk, base, msg, t) == PresignFrom(env, hash, even, px, base, msg, t, i)
    {
      var k := FromBytes(hash(base, i));
      if k.None? { continue; }
      var combined := Combine(PublicOf(k.value), t);
      if combined.None? { return None; }
      if IsOdd(env, combined.value) { continue; }
      var e := Challenge(env, XOf(combined.value), px, msg);
      var ed := MulTweak(even, e);
      if ed.None? { return None; }
      var s := AddTweak(k.value, ed.value);
      if s.None? { return None; }
      return Some(AdaptorSig(OnCurve(XOf(combined.value)), Point(PublicOf(k.value)), s.value, i));
    }
    r := None;
  }

  /** `None` for the source's errors, otherwise its verdict. */
  function VerifyPresig(env: Env, presig: AdaptorSig, pubkey: XBytes, msg: Bytes32, t: PublicKey): Option<bool> {
    if pubkey.OffCurve? || presig.rPoint.NotAPoint? then None else
    var r := presig.rPoint.point;
    var combined :- Combine(r, t);
    if IsOdd(env, combined) || OnCurve(XOf(combined)) != presig.combinedRx then Some(false) else
    var e := Challenge(env, XOf(combined), pubkey.key, msg);
    var ep :- TweakPoint(LiftEven(env, pubkey.key), e);
    var expected :- Combine(r, ep);
    var s :- FromBytes(presig.sA);
    Some(PublicOf(s) == expected)
  }

  function Decrypt(presig: AdaptorSig, t: Bytes32): Option<Signature> {
    var sA :- FromBytes(presig.sA);
    var s :- AddTweak(sA, Reduce(t));
    Some(Signature(presig.combinedRx, s))
  }

  function RecoverT(presig: AdaptorSig, sig: Signature): Option<SecretKey> {
    var s :- FromBytes(sig.s);
    var sA :- FromBytes(presig.sA);
    AddTweak(s, Negate(sA))
  }

  // ------------------------------------------------------------------- the theorems

  /** What an accepted pre-signature satisfies: `s_a = r + e*p` for the exact point R,
      whose sum with T has even Y and the claimed X coordinate. */
  lemma AcceptedMeans(env: Env, presig: AdaptorSig, px: XOnlyKey, msg: Bytes32, t: PublicKey) returns (rx: XOnlyKey)
    requires VerifyPresig(env, presig, OnCurve(px), msg, t) == Some(true)
    ensures presig.combinedRx == OnCurve(rx) && presig.rPoint.Point? && 0 < presig.sA < N
    ensures Cong(N, presig.rPoint.point.log + t.log, LiftEven(env, rx).log)
    ensures Cong(N, presig.sA, presig.rPoint.point.log + Challenge(env, rx, px, msg) * LiftEven(env, px).log)
  {
    hide IsOdd, XOf, LiftEven, Challenge, TweakPoint, Combine, Cong, AddTweak, MulTweak;
    var r := presig.rPoint.point;
    var combined := Combine(r, t).value;
    rx := XOf(combined);
    LiftEvenIs(env, rx, combined);
    CongSym(N, combined.log, r.log + t.log);
    var e := Challenge(env, rx, px, msg);
    var p := LiftEven(env, px);
    TweakPointIs(p, e);
    var ep := TweakPoint(p, e).value;
    CombineIs(r, ep, e * p.log, presig.sA);
  }

  lemma SumEquation(sA: int, r: int, t: int, ep: int, x: int)
    requires Cong(N, sA, r + ep) && Cong(N, r + t, x)
    ensures Cong(N, sA + t, x + ep)
  {
    hide *;
    CongRefl(N, t);
    CongAdd(N, sA, r + ep, t, t);
    CongRefl(N, ep);
    CongAdd(N, r + t, x, ep, ep);
    assert r + ep + t == r + t + ep;
    CongTrans(N, sA + t, r + t + ep, x + ep);
  }

  /** Soundness of acceptance, honest signer or not: a scalar completes an accepted
      pre-signature to a valid BIP-340 signature exactly when it is the discrete
      logarithm of T, and it completes at all unless the sum is zero. */
  lemma AcceptedDecrypts(env: Env, presig: AdaptorSig, px: XOnlyKey, msg: Bytes32, t: PublicKey, secret: Bytes32)
    requires VerifyPresig(env, presig, OnCurve(px), msg, t) == Some(true)
    ensures Decrypt(presig, secret).None? <==> Cong(N, presig.sA + Reduce(secret), 0)
    ensures Decrypt(presig, secret).Some? ==>
      (Verify(env, px, msg, Decrypt(presig, secret).value) <==> Reduce(secret) == t.log)
  {
    var rx := AcceptedMeans(env, presig, px, msg, t);
    hide *;
    var sA: SecretKey, t' := presig.sA, Reduce(secret);
    DecryptIs(presig, secret);
    CongRefl(N, sA as int + t');
    AddTweakIs(sA, t', sA as int + t');
    if AddTweak(sA, t').Some? {
      var s := AddTweak(sA, t').value;
      VerifyEquation(env, px, msg, rx, s);
      var r, ep, x := presig.rPoint.point.log, Challenge(env, rx, px, msg) * LiftEven(env, px).log,
        LiftEven(env, rx).log;
      SumEquation(sA, r, t.log, ep, x);
      OnlyOneCompletes(s, sA, t', t.log, x + ep);
    }
  }

  lemma DecryptIs(presig: AdaptorSig, secret: Bytes32)
    requires 0 < presig.sA < N
    ensures Decrypt(presig, secret).Some? <==> AddTweak(presig.sA, Reduce(secret)).Some?
    ensures Decrypt(presig, secret).Some? ==>
      Decrypt(presig, secret).value == Signature(presig.combinedRx, AddTweak(presig.sA, Reduce(secret)).value)
  {
    hide AddTweak;
  }

  lemma OnlyOneCompletes(s: int, sA: int, t': Scalar, t: Scalar, v: int)
    requires Cong(N, s, sA + t') && Cong(N, sA + t, v)
    ensures Cong(N, s, v) <==> t' == t
  {
    hide *;
    CongSym(N, sA + t, v);
    if Cong(N, s, v) {
      CongTrans(N, s, v, sA + t);
      CongSym(N, s, sA + t');
      CongTrans(N, sA + t', s, sA + t);
      CongRefl(N, sA);
      CongSub(N, sA + t', sA + t, sA, sA);
      assert sA + t' - sA == t' && sA + t - sA == t;
      CongUnique(N, t', t);
    }
    if t' == t { CongTrans(N, s, sA + t', v); }
  }

  /** Any valid signature with the pre-signature's nonce gives the secret away, whoever
      completed it. */
  lemma SignatureRevealsSecret(env: Env, presig: AdaptorSig, px: XOnlyKey, msg: Bytes32, t: PublicKey, sig: Signature)
    requires VerifyPresig(env, presig, OnCurve(px), msg, t) == Some(true)
    requires Verify(env, px, msg, sig) && sig.r == presig.combinedRx && sig.s != 0
    ensures RecoverT(presig, sig) == Some(t.log)
  {
    var rx := AcceptedMeans(env, presig, px, msg, t);
    assert sig.s < N && sig == Signature(OnCurve(rx), sig.s);
    hide *;
    var s: SecretKey, sA: SecretKey := sig.s, presig.sA;
    VerifyEquation(env, px, msg, rx, s);
    var r, ep, x := presig.rPoint.point.log, Challenge(env, rx, px, msg) * LiftEven(env, px).log, LiftEven(env, rx).log;
    SumEquation(sA, r, t.log, ep, x);
    DifferenceIsSecret(s, sA, t.log, x + ep);
    RecoverIs(presig, sig);
  }

  lemma RecoverIs(presig: AdaptorSig, sig: Signature)
    requires 0 < sig.s < N && 0 < presig.sA < N
    ensures RecoverT(presig, sig) == AddTweak(sig.s, Negate(presig.sA))
  {
    hide AddTweak, Negate;
  }

  lemma DifferenceIsSecret(s: SecretKey, sA: SecretKey, t: SecretKey, v: int)
    requires Cong(N, s, v) && Cong(N, sA as int + t, v)
    ensures AddTweak(s, Negate(sA)) == Some(t)
  {
    hide *;
    assert Cong(N, Negate(sA), 0 - sA);
    CongSym(N, sA as int + t, v);
    CongTrans(N, s, v, sA as int + t);
    CongAdd(N, s, sA as int + t, Negate(sA), 0 - sA);
    assert sA as int + t + (0 - sA) == t;
    AddTweakIs(s, Negate(sA), t);
    NotZero(t);
    ReducedSecret(t);
  }

  lemma ReducedSecret(t: SecretKey)
    ensures Reduce(t) == t
  {
  }

  /** Round trip: decrypting with the right secret and recovering from the result. */
  lemma DecryptThenRecover(env: Env, presig: AdaptorSig, px: XOnlyKey, msg: Bytes32, t: PublicKey, secret: Bytes32)
    requires VerifyPresig(env, presig, OnCurve(px), msg, t) == Some(true)
    requires Reduce(secret) == t.log && Decrypt(presig, secret).Some?
    ensures Verify(env, px, msg, Decrypt(presig, secret).value)
    ensures RecoverT(presig, Decrypt(presig, secret).value) == Some(t.log)
  {
    hide *;
    AcceptedDecrypts(env, presig, px, msg, t, secret);
    var rx := AcceptedMeans(env, presig, px, msg, t);
    DecryptIs(presig, secret);
    SignatureRevealsSecret(env, presig, px, msg, t, Decrypt(presig, secret).value);
  }

  lemma PresignWithAccepted(env: Env, sk: SecretKey, msg: Bytes32, t: PublicKey, k: SecretKey, combined: PublicKey,
                            i: nat)
    requires Combine(PublicOf(k), t) == Some(combined) && !IsOdd(env, combined)
    requires PresignWith(env, EvenSecret(env, sk), XOf(PublicOf(sk)), msg, k, combined, i).Some?
    ensures VerifyPresig(env, PresignWith(env, EvenSecret(env, sk), XOf(PublicOf(sk)), msg, k, combined, i).value,
                         OnCurve(XOf(PublicOf(sk))), msg, t) == Some(true)
  {
    EvenSecretLifts(env, sk);
    hide IsOdd, XOf, LiftEven, Challenge, TweakPoint, Combine, Cong, AddTweak, MulTweak, EvenSecret;
    var px, d := XOf(PublicOf(sk)), EvenSecret(env, sk);
    var e := Challenge(env, XOf(combined), px, msg);
    var ed := MulTweak(d, e).value;
    var s := AddTweak(k, ed).value;
    TweakPointIs(PublicOf(d), e);
    var ep := TweakPoint(PublicOf(d), e).value;
    SameProduct(d, e);
    CombineIs(PublicOf(k), ep, ep.log, s) by { CongRefl(N, ep.log); }
  }

  lemma SameProduct(d: SecretKey, e: Scalar)
    ensures TweakPoint(PublicOf(d), e).Some? <==> MulTweak(d, e).Some?
    ensures MulTweak(d, e).Some? ==> TweakPoint(PublicOf(d), e).value == PublicOf(MulTweak(d, e).value)
  {
    hide MulTweak;
  }

  lemma {:induction false} PresignFromAccepted(env: Env, hash: NonceHash, sk: SecretKey, base: Bytes32, msg: Bytes32,
                                               t: PublicKey, i: nat)
    requires i <= ATTEMPTS
    requires PresignFrom(env, hash, EvenSecret(env, sk), XOf(PublicOf(sk)), base, msg, t, i).Some?
    ensures var presig := PresignFrom(env, hash, EvenSecret(env, sk), XOf(PublicOf(sk)), base, msg, t, i).value;
      && VerifyPresig(env, presig, OnCurve(XOf(PublicOf(sk))), msg, t) == Some(true)
      && i <= presig.nonceCounter < ATTEMPTS
      && TryNonce(env, hash, base, t, presig.nonceCounter).Use?
      && forall j :: i <= j < presig.nonceCounter ==> TryNonce(env, hash, base, t, j).Skip?
    decreases ATTEMPTS - i
  {
    hide IsOdd, XOf, Combine, Cong, AddTweak, MulTweak, EvenSecret, VerifyPresig;
    match TryNonce(env, hash, base, t, i)
    case Skip => PresignFromAccepted(env, hash, sk, base, msg, t, i + 1);
    case Fail =>
    case Use(k, combined) => PresignWithAccepted(env, sk, msg, t, k, combined, i);
  }

  /** Candidate `i` is a scalar whose point, added to `t`, is a point of even Y. */
  predicate Usable(env: Env, hash: NonceHash, base: Bytes32, t: PublicKey, i: nat) {
    var k := hash(base, i);
    && 0 < k < N && Combine(PublicOf(k), t).Some? && !IsOdd(env, Combine(PublicOf(k), t).value)
  }

  /** Candidate `i` is no scalar, or makes a point of odd Y: the search goes on. */
  predicate PassedOver(env: Env, hash: NonceHash, base: Bytes32, t: PublicKey, i: nat) {
    var k := hash(base, i);
    0 < k < N ==> Combine(PublicOf(k), t).Some? && IsOdd(env, Combine(PublicOf(k), t).value)
  }

  lemma TryIs(env: Env, hash: NonceHash, base: Bytes32, t: PublicKey, i: nat)
    ensures TryNonce(env, hash, base, t, i).Skip? <==> PassedOver(env, hash, base, t, i)
    ensures TryNonce(env, hash, base, t, i).Use? <==> Usable(env, hash, base, t, i)
    ensures Usable(env, hash, base, t, i) ==>
      var k := hash(base, i);
      TryNonce(env, hash, base, t, i) == Use(k, Combine(PublicOf(k), t).value)
  {
    hide Combine, IsOdd;
  }

  /** The search ends at the first candidate that is not passed over: with it, or failing. */
  lemma {:induction false} PresignFromIs(env: Env, hash: NonceHash, d: SecretKey, px: XOnlyKey, base: Bytes32,
                                         msg: Bytes32, t: PublicKey, i: nat, j: nat)
    requires i <= j < 256 && (forall m :: i <= m < j ==> PassedOver(env, hash, base, t, m))
    ensures Usable(env, hash, base, t, j) ==>
      var k := hash(base, j);
      PresignFrom(env, hash, d, px, base, msg, t, i) ==
        PresignWith(env, d, px, msg, k, Combine(PublicOf(k), t).value, j)
    ensures !Usable(env, hash, base, t, j) && !PassedOver(env, hash, base, t, j) ==>
      PresignFrom(env, hash, d, px, base, msg, t, i) == None
    decreases j - i
  {
    hide Combine, IsOdd, PresignWith, Usable, PassedOver, TryNonce;
    TryIs(env, hash, base, t, i);
    if i < j { PresignFromIs(env, hash, d, px, base, msg, t, i + 1, j); }
  }

  lemma {:induction false} NoneUsable(env: Env, hash: NonceHash, d: SecretKey, px: XOnlyKey, base: Bytes32,
                                      msg: Bytes32, t: PublicKey, i: nat)
    requires i <= 256 && (forall m :: i <= m < 256 ==> PassedOver(env, hash, base, t, m))
    ensures PresignFrom(env, hash, d, px, base, msg, t, i) == None
    decreases 256 - i
  {
    hide Combine, IsOdd, PresignWith, PassedOver, TryNonce;
    if i < 256 {
      TryIs(env, hash, base, t, i);
      NoneUsable(env, hash, d, px, base, msg, t, i + 1);
    }
  }

  /** The nonce of a pre-signature: candidate number `nonceCounter`, below 256, the first one
      that is not passed over.  With none, signing fails. */
  lemma PresignNonce(env: Env, hash: NonceHash, sk: Bytes32, base: Bytes32, msg: Bytes32, t: PublicKey)
    requires 0 < sk < N
    ensures (forall m :: 0 <= m < 256 ==> PassedOver(env, hash, base, t, m)) ==>
      Presigned(env, hash, sk, base, msg, t) == None
    ensures Presigned(env, hash, sk, base, msg, t).Some? ==>
      var presig := Presigned(env, hash, sk, base, msg, t).value;
      var j := presig.nonceCounter;
      && j < 256 && Usable(env, hash, base, t, j) && (forall m :: 0 <= m < j ==> PassedOver(env, hash, base, t, m))
      && presig.rPoint == Point(PublicOf(hash(base, j)))
      && presig.combinedRx == OnCurve(XOf(Combine(PublicOf(hash(base, j)), t).value))
  {
    var d, px := EvenSecret(env, sk), XOf(PublicOf(sk));
    hide Combine, IsOdd, PresignWith, Usable, PassedOver, XOf, EvenSecret, PresignFrom;
    if forall m :: 0 <= m < 256 ==> PassedOver(env, hash, base, t, m) {
      NoneUsable(env, hash, d, px, base, msg, t, 0);
    } else {
      var j := FirstKept(env, hash, base, t, 0);
      PresignFromIs(env, hash, d, px, base, msg, t, 0, j);
      if Usable(env, hash, base, t, j) { PresignWithNonce(env, d, px, msg, hash(base, j), t, j); }
      if Presigned(env, hash, sk, base, msg, t).Some? { UsableIs(env, hash, base, t, j); }
    }
  }

  lemma UsableIs(env: Env, hash: NonceHash, base: Bytes32, t: PublicKey, j: nat)
    requires Usable(env, hash, base, t, j)
    ensures 0 < hash(base, j) < N && Combine(PublicOf(hash(base, j)), t).Some?
  {
    hide Combine, IsOdd;
  }

  lemma PresignWithNonce(env: Env, d: SecretKey, px: XOnlyKey, msg: Bytes32, k: Bytes32, t: PublicKey, j: nat)
    requires 0 < k < N && Combine(PublicOf(k), t).Some?
    ensures var combined := Combine(PublicOf(k), t).value;
      var presig := PresignWith(env, d, px, msg, k, combined, j);
      presig.Some? ==>
        && presig.value.nonceCounter == j && presig.value.rPoint == Point(PublicOf(k))
        && presig.value.combinedRx == OnCurve(XOf(combined))
  {
    hide Combine, XOf, AddTweak, MulTweak, Challenge;
  }

  lemma {:induction false} FirstKept(env: Env, hash: NonceHash, base: Bytes32, t: PublicKey, i: nat) returns (j: nat)
    requires i <= 256 && !(forall m :: i <= m < 256 ==> PassedOver(env, hash, base, t, m))
    ensures i <= j < 256 && !PassedOver(env, hash, base, t, j)
    ensures forall m :: i <= m < j ==> PassedOver(env, hash, base, t, m)
    decreases 256 - i
  {
    hide PassedOver;
    j := i;
    if PassedOver(env, hash, base, t, i) { j := FirstKept(env, hash, base, t, i + 1); }
  }

  /** Completeness: every pre-signature that signing returns is accepted under the
      signer's key, and it used the first usable nonce candidate. */
  lemma PresignAccepted(env: Env, hash: NonceHash, sk: Bytes32, base: Bytes32, msg: Bytes32, t: PublicKey)
    requires Presigned(env, hash, sk, base, msg, t).Some?
    ensures 0 < sk < N
    ensures var presig := Presigned(env, hash, sk, base, msg, t).value;
      && VerifyPresig(env, presig, OnCurve(XOf(PublicOf(sk))), msg, t) == Some(true)
      && TryNonce(env, hash, base, t, presig.nonceCounter).Use?
      && forall j :: 0 <= j < presig.nonceCounter ==> TryNonce(env, hash, base, t, j).Skip?
  {
    hide IsOdd, XOf, Combine, Cong, AddTweak, MulTweak, EvenSecret, VerifyPresig, PresignFrom, TryNonce;
    PresignFromAccepted(env, hash, sk, base, msg, t, 0);
  }
}
