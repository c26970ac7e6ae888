/** BIP-340 signing with a predetermined nonce, the anticipated signature point, and
    the extraction of a key from two signatures under one nonce. */
module Schnorr {
  import opened Options
  import opened Modular
  import opened Bytes
  import opened Secp

  // ------------------------------------------------------------------- signing

  /** The secret key as BIP-340 uses it: the one whose public key has even Y. */
  function EvenSecret(env: Env, d: SecretKey): SecretKey {
    if IsOdd(env, PublicOf(d)) then Negate(d) else d
  }

  lemma EvenSecretLifts(env: Env, d: SecretKey)
    ensures LiftEven(env, XOf(PublicOf(d))) == PublicOf(EvenSecret(env, d))
  {
    LiftOfX(env, PublicOf(d));
  }

  function NoncePoint(k: Bytes32): Option<XOnlyKey> {
    var kk :- FromBytes(k);
    Some(XOf(PublicOf(kk)))
  }

  function SignWithNonce(env: Env, sk: Bytes32, k: Bytes32, msg: Bytes32): Option<Signature> {
    var d :- FromBytes(sk);
    var px := XOf(PublicOf(d));
    var kk :- FromBytes(k);
    var rx := XOf(PublicOf(kk));
    var e := Challenge(env, rx, px, msg);
    var ed :- MulTweak(EvenSecret(env, d), e);
    var s :- AddTweak(EvenSecret(env, kk), ed);
    Some(Signature(OnCurve(rx), s))
  }

  /** A signature that signing returns is a BIP-340 signature under the key's X
      coordinate, and carries the announced nonce point. */
  lemma SignedVerifies(env: Env, sk: Bytes32, k: Bytes32, msg: Bytes32)
    requires SignWithNonce(env, sk, k, msg).Some?
    ensures var sig := SignWithNonce(env, sk, k, msg).value;
      && 0 < sk < N && 0 < k < N
      && Verify(env, XOf(PublicOf(sk)), msg, sig)
      && NoncePoint(k) == Some(sig.r.key)
      && 0 < sig.s < N
      && Challenge(env, sig.r.key, XOf(PublicOf(sk)), msg) != 0
  {
    hide Cong, Reduce, MulTweak, AddTweak, LiftEven, IsOdd, Verify, XOf, Negate, EvenSecret;
    var px, rx := XOf(PublicOf(sk)), XOf(PublicOf(k));
    var e := Challenge(env, rx, px, msg);
    var d, kk := EvenSecret(env, sk), EvenSecret(env, k);
    var ed := MulTweak(d, e).value;
    var s := AddTweak(kk, ed).value;
    hide *;
    MulTweakNonzero(d, e);
    MulTweakCong(d, e);
    EvenSecretLifts(env, sk);
    EvenSecretLifts(env, k);
    SumOfProduct(s, kk, ed, d, e);
    VerifyEquation(env, px, msg, rx, s);
  }

  lemma MulTweakNonzero(a: SecretKey, t: Scalar)
    requires MulTweak(a, t).Some?
    ensures t != 0
  {
    var r := MulTweak(a, t).value;
    hide *;
    MulTweakCong(a, t);
    NotZero(r);
    assert t == 0 ==> a * t == 0;
  }

  lemma SumOfProduct(s: int, k: int, ed: int, d: int, e: int)
    requires Cong(N, s, k + ed) && Cong(N, ed, d * e)
    ensures Cong(N, s, k + e * d)
  {
    hide *;
    CongRefl(N, k);
    CongAdd(N, k, k, ed, d * e);
    CongTrans(N, s, k + ed, k + d * e);
    assert d * e == e * d;
  }

  /** Signing fails exactly on a bad key or nonce, a zero challenge, or a zero sum. */
  lemma SignFails(env: Env, sk: Bytes32, k: Bytes32, msg: Bytes32)
    requires IsPrime(N)
    ensures SignWithNonce(env, sk, k, msg).None? <==>
      || FromBytes(sk).None?
      || FromBytes(k).None?
      || var e := Challenge(env, XOf(PublicOf(k)), XOf(PublicOf(sk)), msg);
         e == 0 || Cong(N, EvenSecret(env, k) + e * EvenSecret(env, sk), 0)
  {
    hide Cong, Reduce, MulTweak, AddTweak, EvenSecret, XOf, IsPrime, Challenge;
    if FromBytes(sk).Some? && FromBytes(k).Some? {
      var e := Challenge(env, XOf(PublicOf(k)), XOf(PublicOf(sk)), msg);
      SumVanishes(EvenSecret(env, sk), EvenSecret(env, k), e);
    }
  }

  lemma SumVanishes(d: SecretKey, kk: SecretKey, e: Scalar)
    requires IsPrime(N)
    ensures MulTweak(d, e).None? <==> e == 0
    ensures MulTweak(d, e).Some? ==> (AddTweak(kk, MulTweak(d, e).value).None? <==> Cong(N, kk + e * d, 0))
  {
    hide *;
    MulTweakFails(d, e);
    if e != 0 {
      var ed := MulTweak(d, e).value;
      MulTweakCong(d, e);
      CongRefl(N, kk);
      CongAdd(N, kk, kk, ed, d * e);
      assert d * e == e * d;
      AddTweakIs(kk, ed, kk + e * d);
    }
  }

  // -------------------------------------------------------------- anticipation

  /** The point `R + e*P` that anyone can compute before the signature exists. */
  function AnticipationPoint(env: Env, rx: XOnlyKey, px: XOnlyKey, msg: Bytes32): Option<PublicKey> {
    var e := Challenge(env, rx, px, msg);
    var ep :- TweakPoint(LiftEven(env, px), e);
    Combine(LiftEven(env, rx), ep)
  }

  /** The consumer's contract, in both directions: a scalar's point is the anticipated
      one exactly when the scalar completes a valid signature. */
  lemma AnticipationIffVerify(env: Env, rx: XOnlyKey, px: XOnlyKey, msg: Bytes32, s: SecretKey)
    requires IsPrime(N)
    ensures AnticipationPoint(env, rx, px, msg) == Some(PublicOf(s)) <==>
      && Verify(env, px, msg, Signature(OnCurve(rx), s))
      && Challenge(env, rx, px, msg) != 0
  {
    hide Cong, IsPrime, Verify, Challenge, LiftEven, Combine, TweakPoint, MulTweak;
    var e := Challenge(env, rx, px, msg);
    var p := LiftEven(env, px);
    VerifyEquation(env, px, msg, rx, s);
    MulTweakFails(p.log, e);
    TweakPointIs(p, e);
    if e != 0 {
      CombineIs(LiftEven(env, rx), TweakPoint(p, e).value, e * p.log, s);
    }
  }
}
