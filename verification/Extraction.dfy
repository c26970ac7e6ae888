/** Extraction of a signing key from two signatures that share a nonce point (EOTS). */
module Extraction {
  import opened Options
  import opened Modular
  import opened Bytes
  import opened Secp
  import opened Schnorr
  import opened ScalarBytes

  /** What extraction computes, over a prime order. */
  ghost function Extracted(env: Env, sig1: Signature, sig2: Signature,
                           msg1: Bytes32, msg2: Bytes32, px: XOnlyKey): Option<SecretKey>
    requires IsPrime(N)
  {
    if sig1.r != sig2.r || msg1 == msg2 || sig1.r.OffCurve? then None else
    var e1 := Challenge(env, sig1.r.key, px, msg1);
    var e2 := Challenge(env, sig1.r.key, px, msg2);
    var s1 :- FromBytes(sig1.s);
    var s2 :- FromBytes(sig2.s);
    var ds :- AddTweak(s1, Negate(s2));
    var e1k :- NonZero(e1);
    var e2k :- NonZero(e2);
    var de :- AddTweak(e1k, Negate(e2k));
    var d :- MulTweak(ds, InverseOf(N, de));
    if XOf(PublicOf(d)) == px then Some(d) else None
  }

  method ExtractSecret(env: Env, sig1: Signature, sig2: Signature,
                       msg1: Bytes32, msg2: Bytes32, px: XOnlyKey) returns (r: Option<SecretKey>)
    ensures IsPrime(N) ==> r == Extracted(env, sig1, sig2, msg1, msg2, px)
    ensures r.Some? ==> XOf(PublicOf(r.value)) == px
  {
    hide IsPrime, Cong, AddTweak, MulTweak, InverseOf, Negate, XOf, Challenge;
    if sig1.r != sig2.r || msg1 == msg2 || sig1.r.OffCurve? {
      return None;
    }
    var rx := sig1.r.key;
    var e1 := Challenge(env, rx, px, msg1);
    var e2 := Challenge(env, rx, px, msg2);
    var s1, s2 := FromBytes(sig1.s), FromBytes(sig2.s);
    if s1.None? || s2.None? { return None; }
    var ds := AddTweak(s1.value, Negate(s2.value));
    if ds.None? { return None; }
    var e1k, e2k := NonZero(e1), NonZero(e2);
    if e1k.None? || e2k.None? { return None; }
    var de := AddTweak(e1k.value, Negate(e2k.value));
    if de.None? { return None; }
    var inverse := InvertModN(de.value);
    if inverse.None? { return None; }
    r := MulTweak(ds.value, inverse.value);
    if r.Some? && XOf(PublicOf(r.value)) != px {
      r := None;
    }
  }

  /** `a - b` as the code forms it. */
  lemma Difference(a: SecretKey, b: SecretKey)
    ensures AddTweak(a, Negate(b)).None? <==> a == b
    ensures AddTweak(a, Negate(b)).Some? ==> Cong(N, AddTweak(a, Negate(b)).value, a as int - b)
  {
    var nb := Negate(b);
    hide Negate, Cong;
    CongRefl(N, a);
    CongAdd(N, a, a, nb, 0 - b);
    assert a as int + (0 - b) == a as int - b;
    AddTweakIs(a, nb, a as int - b);
    DifferenceZero(a, b);
  }

  lemma DifferenceZero(a: SecretKey, b: SecretKey)
    ensures Cong(N, a as int - b, 0) <==> a == b
  {
    if Cong(N, a as int - b, 0) {
      assert Cong(N, a, b);
      CongUnique(N, a, b);
    } else if a == b {
      CongRefl(N, 0);
    }
  }

  lemma QuotientTimes(p: pos, ds: int, de: int, inv: int, q: int)
    requires Cong(p, de * inv, 1) && Cong(p, q, ds * inv)
    ensures Cong(p, ds, de * q)
  {
    hide *;
    CongRefl(p, ds);
    CongMul(p, ds, ds, de * inv, 1);
    CongSym(p, ds * (de * inv), ds * 1);
    CongSym(p, q, ds * inv);
    CongRefl(p, de);
    CongMul(p, de, de, ds * inv, q);
    assert ds * (de * inv) == de * (ds * inv);
    assert ds * 1 == ds;
    CongTrans(p, ds, de * (ds * inv), de * q);
  }

  /** `ds / de` is `d` exactly when `ds = de * d`. */
  lemma Quotient(ds: SecretKey, de: SecretKey, d: SecretKey)
    requires IsPrime(N)
    ensures MulTweak(ds, InverseOf(N, de)).Some?
    ensures MulTweak(ds, InverseOf(N, de)) == Some(d) <==> Cong(N, ds, de * d)
  {
    hide *;
    var inv := InverseOf(N, de);
    MulTweakFails(ds, inv);
    var q := MulTweak(ds, inv).value;
    MulTweakCong(ds, inv);
    InverseIs(N, de);
    QuotientTimes(N, ds, de, inv, q);
    if Cong(N, ds, de * d) {
      QuotientUnique(de, q, d, ds);
    }
  }

  lemma QuotientUnique(de: SecretKey, q: SecretKey, d: SecretKey, ds: int)
    requires IsPrime(N)
    requires Cong(N, ds, de * q) && Cong(N, ds, de * d)
    ensures q == d
  {
    hide *;
    CongSym(N, ds, de * q);
    CongTrans(N, de * q, ds, de * d);
    assert de * q == q * de && de * d == d * de;
    NotZero(de);
    Cancel(N, q, d, de);
    CongUnique(N, q, d);
  }

  /** Extraction, exactly: with nonzero scalars and distinct nonzero challenges it finds
      the discrete logarithm of the even-Y point of `px` when s1 - s2 is that multiple of
      e1 - e2, the negated one when it is the opposite multiple, and nothing else. */
  lemma ExtractExact(env: Env, sig1: Signature, sig2: Signature,
                     msg1: Bytes32, msg2: Bytes32, px: XOnlyKey, rx: XOnlyKey)
    requires IsPrime(N)
    requires sig1.r == sig2.r == OnCurve(rx) && msg1 != msg2
    ensures var e1, e2 := Challenge(env, rx, px, msg1), Challenge(env, rx, px, msg2);
      var p := LiftEven(env, px).log;
      var r := Extracted(env, sig1, sig2, msg1, msg2, px);
      var usable := 0 < sig1.s < N && 0 < sig2.s < N && sig1.s != sig2.s && e1 != 0 && e2 != 0 && e1 != e2;
      && (!usable ==> r == None)
      && (usable ==> (r == Some(p) <==> Cong(N, sig1.s as int - sig2.s, (e1 as int - e2) * p)))
      && (usable ==> (r == Some(Negate(p)) <==> Cong(N, sig1.s as int - sig2.s, (e1 as int - e2) * Negate(p))))
      && (r.Some? ==> r.value == p || r.value == Negate(p))
  {
    hide Cong, Reduce, InverseOf, AddTweak, MulTweak, IsPrime;
    var e1, e2 := Challenge(env, rx, px, msg1), Challenge(env, rx, px, msg2);
    var p := LiftEven(env, px);
    LiftEvenIs(env, px, p);
    if 0 < sig1.s < N && 0 < sig2.s < N && sig1.s != sig2.s && e1 != 0 && e2 != 0 && e1 != e2 {
      Difference(sig1.s, sig2.s);
      Difference(e1, e2);
      var ds, de := AddTweak(sig1.s, Negate(sig2.s)).value, AddTweak(e1, Negate(e2)).value;
      var d := MulTweak(ds, InverseOf(N, de));
      Quotient(ds, de, p.log);
      Quotient(ds, de, Negate(p.log));
      ScaledDifference(ds, sig1.s as int - sig2.s, de, e1 as int - e2, p.log);
      ScaledDifference(ds, sig1.s as int - sig2.s, de, e1 as int - e2, Negate(p.log));
      SameX(PublicOf(d.value), p);
      SameX(NegatePoint(p), p);
    } else {
      if 0 < sig1.s < N && 0 < sig2.s < N { Difference(sig1.s, sig2.s); }
      if e1 != 0 && e2 != 0 { Difference(e1, e2); }
    }
  }

  lemma ScaledDifference(ds: int, s: int, de: int, e: int, p: int)
    requires Cong(N, ds, s) && Cong(N, de, e)
    ensures Cong(N, ds, de * p) <==> Cong(N, s, e * p)
  {
    hide Cong;
    CongRefl(N, p);
    CongMul(N, de, e, p, p);
    CongSym(N, ds, s);
    CongSym(N, de * p, e * p);
    if Cong(N, ds, de * p) {
      CongTrans(N, s, ds, de * p);
      CongTrans(N, s, de * p, e * p);
    }
    if Cong(N, s, e * p) {
      CongTrans(N, ds, s, e * p);
      CongTrans(N, ds, e * p, de * p);
    }
  }

  /** Two valid signatures over different messages under one nonce point reveal the
      even-Y secret key, exactly when the scalars and challenges are usable. */
  lemma EquivocationReveals(env: Env, sig1: Signature, sig2: Signature,
                            msg1: Bytes32, msg2: Bytes32, px: XOnlyKey)
    requires IsPrime(N)
    requires Verify(env, px, msg1, sig1) && Verify(env, px, msg2, sig2)
    requires sig1.r == sig2.r && msg1 != msg2
    ensures sig1.r.OnCurve?
    ensures var e1 := Challenge(env, sig1.r.key, px, msg1);
      var e2 := Challenge(env, sig1.r.key, px, msg2);
      Extracted(env, sig1, sig2, msg1, msg2, px) ==
        if sig1.s != 0 && sig2.s != 0 && e1 != 0 && e2 != 0 && e1 != e2
        then Some(LiftEven(env, px).log) else None
  {
    hide *;
    ValidDifference(env, sig1, sig2, msg1, msg2, px);
    ExtractExact(env, sig1, sig2, msg1, msg2, px, sig1.r.key);
  }

  lemma ValidIsOnCurve(env: Env, px: XOnlyKey, msg: Bytes32, sig: Signature)
    requires Verify(env, px, msg, sig)
    ensures sig.s < N && sig.r.OnCurve? && sig == Signature(OnCurve(sig.r.key), sig.s)
  {
  }

  lemma ValidDifference(env: Env, sig1: Signature, sig2: Signature,
                        msg1: Bytes32, msg2: Bytes32, px: XOnlyKey)
    requires IsPrime(N)
    requires Verify(env, px, msg1, sig1) && Verify(env, px, msg2, sig2)
    requires sig1.r == sig2.r
    ensures sig1.r.OnCurve? && sig1.s < N && sig2.s < N
    ensures var e1, e2 := Challenge(env, sig1.r.key, px, msg1), Challenge(env, sig1.r.key, px, msg2);
      && Cong(N, sig1.s as int - sig2.s, (e1 as int - e2) * LiftEven(env, px).log)
      && (e1 != 0 && e2 != 0 && e1 != e2 ==> sig1.s != sig2.s)
  {
    ValidIsOnCurve(env, px, msg1, sig1);
    ValidIsOnCurve(env, px, msg2, sig2);
    hide *;
    var rx := sig1.r.key;
    var e1, e2 := Challenge(env, rx, px, msg1), Challenge(env, rx, px, msg2);
    var r, p := LiftEven(env, rx).log, LiftEven(env, px).log;
    VerifyEquation(env, px, msg1, rx, sig1.s);
    VerifyEquation(env, px, msg2, rx, sig2.s);
    SubtractEquations(N, sig1.s, sig2.s, r, e1, e2, p);
    if e1 != 0 && e2 != 0 && e1 != e2 && sig1.s == sig2.s {
      ProductOfNonzero(e1, e2, p);
    }
  }

  lemma SubtractEquations(n: pos, s1: int, s2: int, r: int, e1: int, e2: int, p: int)
    requires Cong(n, s1, r + e1 * p) && Cong(n, s2, r + e2 * p)
    ensures Cong(n, s1 - s2, (e1 - e2) * p)
  {
    hide *;
    CongSub(n, s1, r + e1 * p, s2, r + e2 * p);
    assert r + e1 * p - (r + e2 * p) == (e1 - e2) * p;
  }

  lemma ProductOfNonzero(e1: SecretKey, e2: SecretKey, p: SecretKey)
    requires IsPrime(N)
    requires Cong(N, 0, (e1 as int - e2) * p)
    ensures e1 == e2
  {
    hide *;
    CongSym(N, 0, (e1 as int - e2) * p);
    NoZeroDivisors(N, e1 as int - e2, p);
    DifferenceZero(e1, e2);
    NotZero(p);
  }

  /** From signing to extraction: two messages signed with one nonce determine
      the key, unless their challenges are equal. */
  lemma NonceReuseReveals(env: Env, sk: Bytes32, k: Bytes32, msg1: Bytes32, msg2: Bytes32)
    requires IsPrime(N) && msg1 != msg2
    requires SignWithNonce(env, sk, k, msg1).Some? && SignWithNonce(env, sk, k, msg2).Some?
    ensures 0 < sk < N && 0 < k < N
    ensures var px, rx := XOf(PublicOf(sk)), XOf(PublicOf(k));
      Extracted(env, SignWithNonce(env, sk, k, msg1).value, SignWithNonce(env, sk, k, msg2).value, msg1, msg2, px) ==
        if Challenge(env, rx, px, msg1) == Challenge(env, rx, px, msg2) then None else Some(EvenSecret(env, sk))
  {
    SignedVerifies(env, sk, k, msg1);
    SignedVerifies(env, sk, k, msg2);
    assert NoncePoint(k) == Some(XOf(PublicOf(k))) by { hide XOf; }
    var sig1, sig2, px := SignWithNonce(env, sk, k, msg1).value, SignWithNonce(env, sk, k, msg2).value,
      XOf(PublicOf(sk));
    assert sig1.r == OnCurve(XOf(PublicOf(k))) && sig2.r == OnCurve(XOf(PublicOf(k))) by { hide *; }
    hide *;
    EvenSecretLifts(env, sk);
    EquivocationReveals(env, sig1, sig2, msg1, msg2, px);
    LogOf(EvenSecret(env, sk));
  }

  lemma LogOf(d: SecretKey)
    ensures PublicOf(d).log == d
  {
  }

  /** The secret returned need not be the even-Y one when the signatures were never
      verified: an opposite difference of scalars yields the odd-Y key, which has the
      same X coordinate and is therefore accepted. */
  lemma UnverifiedMayYieldOddKey(env: Env, rx: XOnlyKey, px: XOnlyKey, msg1: Bytes32, msg2: Bytes32,
                                 s1: SecretKey, s2: SecretKey)
    requires IsPrime(N) && msg1 != msg2 && s1 != s2
    requires var e1, e2 := Challenge(env, rx, px, msg1), Challenge(env, rx, px, msg2);
      && e1 != 0 && e2 != 0 && e1 != e2
      && Cong(N, s1 as int - s2, (e1 as int - e2) * Negate(LiftEven(env, px).log))
    ensures var d := Negate(LiftEven(env, px).log);
      && Extracted(env, Signature(OnCurve(rx), s1), Signature(OnCurve(rx), s2), msg1, msg2, px) == Some(d)
      && IsOdd(env, PublicOf(d))
  {
    hide Cong, Challenge, IsPrime, Extracted;
    ExtractExact(env, Signature(OnCurve(rx), s1), Signature(OnCurve(rx), s2), msg1, msg2, px, rx);
    var p := LiftEven(env, px);
    LiftEvenIs(env, px, p);
    OppositeParity(env, p);
  }
}
