/** The scalars and points of secp256k1, and BIP-340 signatures over them.

    The points other than infinity are the multiples `k * G` with `0 < k < N`, and a
    point is represented by its `k`.  Nothing in the modelled code reads that `k`; it
    is how the group of prime order N is written down.  Which of a point and its
    negation has the odd Y coordinate is left to the environment, as is every hash. */
module Secp {
  import opened Options
  import opened Modular
  import opened Bytes

  /** What the code relies on about the order of secp256k1, which is the witness: 32
      bytes hold it, twice it holds every 32-byte number, and its last byte is 0x41. */
  type GroupOrder = n: pos | n < TWO256 < 2 * n && n % 256 == 0x41
    witness 0xFFFFFFFF_FFFFFFFF_FFFFFFFF_FFFFFFFE_BAAEDCE6_AF48A03B_BFD25E8C_D0364141

  /** The order of the group; every statement holds for any such number. */
  const N: GroupOrder

  type Scalar = s: nat | s < N
  type SecretKey = s: nat | 0 < s < N witness 1

  datatype PublicKey = PublicKey(log: SecretKey)

  /** An X coordinate: the smaller of the two discrete logarithms that share it. */
  type XOnlyKey = x: nat | 0 < 2 * x < N witness 1

  /** 32 bytes where an X coordinate is expected: one of the curve, or some other string. */
  datatype XBytes = OnCurve(key: XOnlyKey) | OffCurve(code: nat)

  datatype Signature = Signature(r: XBytes, s: Bytes32)

  /** What the curve and SHA-256 decide: `odd(x)` tells whether the smaller logarithm
      of an X coordinate belongs to the point with odd Y, and `challengeHash` is the
      tagged hash of BIP-340's challenge. */
  datatype Env = Env(odd: XOnlyKey -> bool, challengeHash: (XOnlyKey, XOnlyKey, Bytes32) -> Bytes32)

  // -------------------------------------------------------------------- scalars

  function Reduce(v: int): (r: Scalar)
    ensures Cong(N, r, v)
  {
    CongReduced(N, v);
    Mod(v, N)
  }

  function FromBytes(b: Bytes32): Option<SecretKey> {
    if 0 < b < N then Some(b) else None
  }

  function NonZero(s: Scalar): Option<SecretKey> {
    if s == 0 then None else Some(s)
  }

  function AddTweak(a: SecretKey, t: Scalar): (r: Option<SecretKey>)
    ensures r.Some? ==> Cong(N, r.value, a + t)
    ensures r.None? ==> Cong(N, a + t, 0)
  {
    CongSym(N, Reduce(a + t), a + t);
    NonZero(Reduce(a + t))
  }

  function MulTweak(a: SecretKey, t: Scalar): (r: Option<SecretKey>)
    ensures r.Some? ==> Cong(N, r.value, Times(a, t))
    ensures r.None? ==> Cong(N, Times(a, t), 0)
  {
    CongSym(N, Reduce(Times(a, t)), Times(a, t));
    NonZero(Reduce(Times(a, t)))
  }

  function Negate(a: SecretKey): (r: SecretKey)
    ensures Cong(N, r, 0 - a)
  {
    CongIntro(N, N - a, 0 - a, 1);
    N - a
  }

  lemma NotZero(a: SecretKey)
    ensures !Cong(N, a, 0)
  {
    if Cong(N, a, 0) { CongUnique(N, a, 0); }
  }

  lemma MulTweakCong(a: SecretKey, t: Scalar)
    ensures MulTweak(a, t).Some? ==> Cong(N, MulTweak(a, t).value, a * t)
    ensures MulTweak(a, t).None? ==> Cong(N, a * t, 0)
  {
    TimesIs(a, t);
  }

  /** Over a prime order only a zero tweak makes a product fail. */
  lemma MulTweakFails(a: SecretKey, t: Scalar)
    requires IsPrime(N)
    ensures MulTweak(a, t).None? <==> t == 0
  {
    MulTweakCong(a, t);
    if t == 0 {
      if MulTweak(a, t).Some? { NotZero(MulTweak(a, t).value); }
    } else if MulTweak(a, t).None? {
      Euclid(N, a, t);
    }
  }

  lemma ReduceIs(u: int, v: int)
    requires Cong(N, u, v)
    ensures Reduce(u) == Reduce(v)
    ensures Reduce(v) == 0 <==> Cong(N, v, 0)
  {
    CongModEq(N, u, v);
    CongModEq(N, v, 0);
    ModIs(u, N);
    ModIs(v, N);
    ModIs(0, N);
  }

  lemma AddTweakIs(a: SecretKey, t: Scalar, v: int)
    requires Cong(N, a + t, v)
    ensures !Cong(N, v, 0) ==> AddTweak(a, t) == Some(Reduce(v))
    ensures Cong(N, v, 0) ==> AddTweak(a, t) == None
  {
    ReduceIs(a + t, v);
  }

  // --------------------------------------------------------------------- points

  function PublicOf(a: SecretKey): PublicKey {
    PublicKey(a)
  }

  function Combine(p: PublicKey, q: PublicKey): (r: Option<PublicKey>)
    ensures r.Some? ==> Cong(N, r.value.log, p.log + q.log)
    ensures r.None? ==> Cong(N, p.log + q.log, 0)
  {
    var s :- AddTweak(p.log, q.log);
    Some(PublicKey(s))
  }

  lemma CombineIs(p: PublicKey, q: PublicKey, v: int, s: SecretKey)
    requires Cong(N, q.log, v)
    ensures Combine(p, q) == Some(PublicKey(s)) <==> Cong(N, s, p.log + v)
  {
    hide Cong;
    CongRefl(N, p.log);
    CongAdd(N, p.log, p.log, q.log, v);
    var r := Combine(p, q);
    if r == Some(PublicKey(s)) {
      CongTrans(N, s, p.log + q.log, p.log + v);
    }
    if Cong(N, s, p.log + v) {
      CongSym(N, p.log + q.log, p.log + v);
      CongTrans(N, s, p.log + v, p.log + q.log);
      NotZero(s);
      if r.None? {
        CongTrans(N, s, p.log + q.log, 0);
      } else {
        CongSym(N, r.value.log, p.log + q.log);
        CongTrans(N, s, p.log + q.log, r.value.log);
        CongUnique(N, s, r.value.log);
      }
    }
  }

  function TweakPoint(p: PublicKey, t: Scalar): (r: Option<PublicKey>)
    ensures r.Some? ==> Cong(N, r.value.log, Times(p.log, t))
    ensures r.None? ==> Cong(N, Times(p.log, t), 0)
  {
    var s :- MulTweak(p.log, t);
    Some(PublicKey(s))
  }

  lemma TweakPointIs(p: PublicKey, t: Scalar)
    ensures TweakPoint(p, t).Some? <==> MulTweak(p.log, t).Some?
    ensures TweakPoint(p, t).Some? ==> Cong(N, TweakPoint(p, t).value.log, t * p.log)
  {
    TimesIs(p.log, t);
    assert p.log * t == t * p.log;
  }

  function NegatePoint(p: PublicKey): PublicKey {
    PublicKey(Negate(p.log))
  }

  lemma NIsOdd()
    ensures N % 2 == 1
  {
    var q, r := N / 256, N % 256;
    assert N == 2 * (128 * q + 32) + 1;
  }

  function XOf(p: PublicKey): XOnlyKey {
    if 2 * p.log < N then p.log else NIsOdd(); N - p.log
  }

  predicate IsOdd(env: Env, p: PublicKey) {
    if 2 * p.log < N then env.odd(p.log) else NIsOdd(); !env.odd(N - p.log)
  }

  /** The point with the given X coordinate and even Y. */
  function LiftEven(env: Env, x: XOnlyKey): PublicKey {
    if env.odd(x) then PublicKey(N - x) else PublicKey(x)
  }

  /** Two points share an X coordinate exactly when they are equal or opposite. */
  lemma SameX(p: PublicKey, q: PublicKey)
    ensures XOf(p) == XOf(q) <==> p == q || p == NegatePoint(q)
  {
    NIsOdd();
  }

  lemma OppositeParity(env: Env, p: PublicKey)
    ensures IsOdd(env, NegatePoint(p)) <==> !IsOdd(env, p)
  {
    NIsOdd();
  }

  lemma LiftEvenIs(env: Env, x: XOnlyKey, p: PublicKey)
    ensures p == LiftEven(env, x) <==> XOf(p) == x && !IsOdd(env, p)
  {
    NIsOdd();
  }

  /** The even-Y normalisation: the point itself or its negation. */
  lemma LiftOfX(env: Env, p: PublicKey)
    ensures LiftEven(env, XOf(p)) == if IsOdd(env, p) then NegatePoint(p) else p
  {
    NIsOdd();
  }

  // -------------------------------------------------------------------- BIP-340

  function Challenge(env: Env, rx: XOnlyKey, px: XOnlyKey, msg: Bytes32): Scalar {
    Reduce(env.challengeHash(rx, px, msg))
  }

  /** BIP-340 "Verification": R = s*G - e*P is not infinity, has even Y and the
      X coordinate of the signature. */
  predicate Verify(env: Env, px: XOnlyKey, msg: Bytes32, sig: Signature) {
    && sig.r.OnCurve?
    && sig.s < N
    && var e := Challenge(env, sig.r.key, px, msg);
    var nonce := NonZero(Reduce(sig.s - Times(e, LiftEven(env, px).log)));
    && nonce.Some?
    && !IsOdd(env, PublicKey(nonce.value))
    && XOf(PublicKey(nonce.value)) == sig.r.key
  }

  lemma VerifiedOnCurve(env: Env, px: XOnlyKey, msg: Bytes32, sig: Signature)
    requires Verify(env, px, msg, sig)
    ensures sig.r == OnCurve(sig.r.key)
  {
    hide Challenge, Reduce, LiftEven, XOf;
  }

  /** Verification as one equation in the exponent: s = r + e*p. */
  lemma VerifyEquation(env: Env, px: XOnlyKey, msg: Bytes32, rx: XOnlyKey, s: Scalar)
    ensures Verify(env, px, msg, Signature(OnCurve(rx), s)) <==>
      Cong(N, s, LiftEven(env, rx).log + Challenge(env, rx, px, msg) * LiftEven(env, px).log)
  {
    var r := LiftEven(env, rx);
    var ep := Challenge(env, rx, px, msg) * LiftEven(env, px).log;
    TimesIs(Challenge(env, rx, px, msg), LiftEven(env, px).log);
    var nonce := Reduce(s - ep);
    hide Cong, Reduce, Times;
    if Cong(N, s, r.log + ep) {
      CongRefl(N, ep);
      CongSub(N, s, r.log + ep, ep, ep);
      CongTrans(N, nonce, s - ep, r.log);
      CongUnique(N, nonce, r.log);
      LiftEvenIs(env, rx, r);
    }
    if Verify(env, px, msg, Signature(OnCurve(rx), s)) {
      LiftEvenIs(env, rx, PublicKey(nonce));
      CongSym(N, nonce, s - ep);
      CongRefl(N, ep);
      CongAdd(N, s - ep, r.log, ep, ep);
    }
  }

  /** The same equation over the hash itself: nonce point, key and message in this order,
      modulo the group order. */
  lemma VerifiesIff(env: Env, px: XOnlyKey, msg: Bytes32, rx: XOnlyKey, s: Scalar)
    ensures Verify(env, px, msg, Signature(OnCurve(rx), s)) <==>
      Cong(N, s, LiftEven(env, rx).log + (env.challengeHash(rx, px, msg) % N) * LiftEven(env, px).log)
  {
    ModIs(env.challengeHash(rx, px, msg), N);
    assert Challenge(env, rx, px, msg) == env.challengeHash(rx, px, msg) % N;
    hide *;
    VerifyEquation(env, px, msg, rx, s);
  }
}
