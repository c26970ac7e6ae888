/** When a quorum of a keyed cohort can announce and attest: exactly when no sum that the curve
    library has to represent vanishes, and no challenge is zero. */
module FrostRefusals {
  import opened Options
  import opened Modular
  import opened Secp
  import opened Schnorr
  import opened Lagrange
  import opened Event
  import opened Frost
  import opened FrostKeygen
  import opened FrostSigning
  import opened FrostCohort
  import opened FrostDealers
  import opened FrostNonces

  // ------------------------------------------------------------------- announcing

  /** Neither a member's nonce nor the sum after it vanishes. */
  predicate Forms(h: Hashes, ts: Timestamp, i: nat, q: seq<u16>, des: seq<DigitCommit>, k: nat)
    requires k < |q| == |des|
  {
    Contribution(h, ts, i, q, des, k) % N != 0 && NonceSum(h, ts, i, q, des, k + 1) % N != 0
  }

  lemma VanishesIff(v: int)
    ensures Cong(N, v, 0) <==> v % N == 0
  {
    CongModEq(N, v, 0);
  }

  lemma TermIff(h: Hashes, ts: Timestamp, i: nat, q: seq<u16>, des: seq<DigitCommit>, k: nat)
    requires IsPrime(N) && k < |q| == |des|
    ensures NonceTerm(h, ts, i, q, des, k).Some? <==> Contribution(h, ts, i, q, des, k) % N != 0
  {
    var rho := h.bindingFactor(q[k], ts, i, q, des);
    var d, e := des[k].0, des[k].1;
    MulTweakFails(e.log, rho);
    var bound := TweakPoint(e, rho).value;
    hide IsPrime, TweakPoint, Combine, Cong, MulTweak;
    VanishesIff(d.log + Times(e.log, rho));
    SumNone(d, bound, Times(e.log, rho));
  }

  lemma SumNone(p: PublicKey, t: PublicKey, v: int)
    requires Cong(N, t.log, v)
    ensures Combine(p, t).None? <==> Cong(N, p.log + v, 0)
  {
    assert CombineInto(Some(p), t) == Combine(p, t);
    hide *;
    CongRefl(N, p.log);
    CombineVanishes(Some(p), t, p.log);
    CongAdd(N, p.log, p.log, t.log, v);
    if Cong(N, p.log + t.log, 0) {
      CongSym(N, p.log + t.log, p.log + v);
      CongTrans(N, p.log + v, p.log + t.log, 0);
    }
    if Cong(N, p.log + v, 0) { CongTrans(N, p.log + t.log, p.log + v, 0); }
  }

  lemma PrefixStep(h: Hashes, ts: Timestamp, i: nat, q: seq<u16>, des: seq<DigitCommit>, k: nat)
    requires 0 < k <= |q| == |des| && NoncePrefix(h, ts, i, q, des, k - 1).Some?
    ensures NoncePrefix(h, ts, i, q, des, k).Some? <==>
      && NonceTerm(h, ts, i, q, des, k - 1).Some?
      && CombineInto(NoncePrefix(h, ts, i, q, des, k - 1).value, NonceTerm(h, ts, i, q, des, k - 1).value).Some?
  {
    hide NonceTerm, CombineInto;
  }

  lemma PrefixFormsIff(h: Hashes, ts: Timestamp, i: nat, q: seq<u16>, des: seq<DigitCommit>, k: nat)
    requires IsPrime(N) && 0 < k <= |q| == |des| && NoncePrefix(h, ts, i, q, des, k - 1).Some?
    ensures NoncePrefix(h, ts, i, q, des, k).Some? <==> Forms(h, ts, i, q, des, k - 1)
  {
    hide *;
    FormsIs(h, ts, i, q, des, k - 1);
    PrefixStep(h, ts, i, q, des, k);
    TermIff(h, ts, i, q, des, k - 1);
    if NonceTerm(h, ts, i, q, des, k - 1).Some? {
      NoncePrefixIs(h, ts, i, q, des, k - 1);
      NonceTermIs(h, ts, i, q, des, k - 1);
      if k == 1 { NonceSumEmpty(h, ts, i, q, des); }
      AddedNone(NoncePrefix(h, ts, i, q, des, k - 1).value, NonceTerm(h, ts, i, q, des, k - 1).value,
                NonceSum(h, ts, i, q, des, k - 1), Contribution(h, ts, i, q, des, k - 1));
    }
  }

  lemma FormsIs(h: Hashes, ts: Timestamp, i: nat, q: seq<u16>, des: seq<DigitCommit>, k: nat)
    requires k < |q| == |des|
    ensures Forms(h, ts, i, q, des, k) <==>
      && Contribution(h, ts, i, q, des, k) % N != 0
      && (NonceSum(h, ts, i, q, des, k) + Contribution(h, ts, i, q, des, k)) % N != 0
  {
    hide Contribution;
  }

  lemma {:induction false} PrefixIff(h: Hashes, ts: Timestamp, i: nat, q: seq<u16>, des: seq<DigitCommit>, k: nat)
    requires IsPrime(N) && k <= |q| == |des|
    ensures NoncePrefix(h, ts, i, q, des, k).Some? <==> forall j :: 0 <= j < k ==> Forms(h, ts, i, q, des, j)
  {
    hide IsPrime, NonceTerm, CombineInto, Forms;
    if k > 0 {
      hide NoncePrefix;
      PrefixIff(h, ts, i, q, des, k - 1);
      if NoncePrefix(h, ts, i, q, des, k - 1).Some? {
        PrefixFormsIff(h, ts, i, q, des, k);
      } else {
        NoncePrefixFails(h, ts, i, q, des, k - 1, k);
      }
    }
  }

  lemma AddedNone(acc: Option<PublicKey>, t: PublicKey, v: int, w: int)
    requires acc.Some? ==> Cong(N, acc.value.log, v)
    requires acc.None? ==> v == 0
    requires Cong(N, t.log, w)
    ensures CombineInto(acc, t).None? <==> (v + w) % N == 0
  {
    hide *;
    CombineVanishes(acc, t, v);
    VanishesIff(v + w);
    CongRefl(N, v);
    CongAdd(N, v, v, t.log, w);
    if Cong(N, v + t.log, 0) {
      CongSym(N, v + t.log, v + w);
      CongTrans(N, v + w, v + t.log, 0);
    }
    if Cong(N, v + w, 0) { CongTrans(N, v + t.log, v + w, 0); }
  }

  /** A digit's session exists exactly when every sum on the way does. */
  lemma SessionIff(h: Hashes, ts: Timestamp, i: nat, q: seq<u16>, des: seq<DigitCommit>)
    requires IsPrime(N) && |q| == |des|
    ensures NonceSession(h, ts, i, q, des).Some? <==>
      |q| > 0 && forall j :: 0 <= j < |q| ==> Forms(h, ts, i, q, des, j)
  {
    PrefixIff(h, ts, i, q, des, |q|);
    if NoncePrefix(h, ts, i, q, des, |q|).Some? { NoncePrefixIs(h, ts, i, q, des, |q|); }
    hide IsPrime, NoncePrefix, Forms, Cong;
  }

  predicate HasSession(h: Hashes, ts: Timestamp, q: seq<u16>, cs: seq<NonceCommitment>, i: nat) {
    QuorumCommitments(q, cs, i).Ok? && NonceSession(h, ts, i, q, QuorumCommitments(q, cs, i).value).Some?
  }

  lemma {:induction false} PointsIff(h: Hashes, ts: Timestamp, q: seq<u16>, cs: seq<NonceCommitment>, k: nat)
    ensures NoncePoints(h, ts, q, cs, k).Ok? <==> forall i :: 0 <= i < k ==> HasSession(h, ts, q, cs, i)
  {
    hide QuorumCommitments, NonceSession, XOf;
    if k > 0 {
      PointsIff(h, ts, q, cs, k - 1);
      assert NoncePoints(h, ts, q, cs, k).Ok? <==>
        NoncePoints(h, ts, q, cs, k - 1).Ok? && HasSession(h, ts, q, cs, k - 1);
      hide HasSession;
    }
  }

  /** On digit `i` neither the nonce of member `k` nor the sum up to it vanishes. */
  predicate NonceForms(h: Hashes, seeds: seq<Seed>, ts: Timestamp, q: seq<u16>, i: nat, k: nat)
    requires k < |q| == |seeds|
  {
    MemberNonce(h, seeds, ts, q, i, k) % N != 0 && QuorumNonce(h, seeds, ts, q, i, k + 1) % N != 0
  }

  predicate NoncesForm(h: Hashes, seeds: seq<Seed>, ts: Timestamp, q: seq<u16>, i: nat)
    requires |seeds| == |q|
  {
    |q| > 0 && forall k :: 0 <= k < |q| ==> NonceForms(h, seeds, ts, q, i, k)
  }

  lemma NonceFormsIff(h: Hashes, seeds: seq<Seed>, ts: Timestamp, q: seq<u16>, i: nat, k: nat)
    requires k < |q| == |seeds|
    ensures Forms(h, ts, i, q, Published(h, seeds, ts, i), k) <==> NonceForms(h, seeds, ts, q, i, k)
  {
    hide MemberNonce, QuorumNonce, Contribution, NonceSum, Published;
    ContributionIs(h, seeds, ts, q, i, k);
    SumIsNonces(h, seeds, ts, q, i, k + 1);
  }

  lemma NoncesFormIff(h: Hashes, seeds: seq<Seed>, ts: Timestamp, q: seq<u16>, i: nat)
    requires IsPrime(N) && |seeds| == |q|
    ensures NonceSession(h, ts, i, q, Published(h, seeds, ts, i)).Some? <==> NoncesForm(h, seeds, ts, q, i)
  {
    hide IsPrime, NonceSession, Forms, NonceForms, Published;
    SessionIff(h, ts, i, q, Published(h, seeds, ts, i));
    forall k | 0 <= k < |q|
      ensures Forms(h, ts, i, q, Published(h, seeds, ts, i), k) <==> NonceForms(h, seeds, ts, q, i, k)
    {
      NonceFormsIff(h, seeds, ts, q, i, k);
    }
  }

  lemma HonestSessionIff(h: Hashes, ts: Timestamp, q: seq<u16>, signers: seq<Signer>, cs: seq<NonceCommitment>, i: nat)
    requires IsPrime(N) && HonestCommitments(h, ts, q, signers, cs) && i < NB_DIGITS
    ensures |signers| == |q|
    ensures HasSession(h, ts, q, cs, i) <==> NoncesForm(h, SeedsOf(signers), ts, q, i)
  {
    HonestArePublished(h, ts, q, signers, cs, i);
    NoncesFormIff(h, SeedsOf(signers), ts, q, i);
    hide IsPrime, HonestCommitments, QuorumCommitments, NonceSession, NoncesForm, Published;
  }

  /** With honest commitments, the announcement is made exactly when all digits' nonces form. */
  lemma AnnouncesIff(h: Hashes, ts: Timestamp, q: seq<u16>, signers: seq<Signer>, cs: seq<NonceCommitment>)
    requires IsPrime(N) && HonestCommitments(h, ts, q, signers, cs)
    ensures |signers| == |q|
    ensures AggregateAnnouncement(h, ts, q, cs).Ok? <==>
      forall i :: 0 <= i < NB_DIGITS ==> NoncesForm(h, SeedsOf(signers), ts, q, i)
  {
    assert AggregateAnnouncement(h, ts, q, cs).Ok? <==> NoncePoints(h, ts, q, cs, NB_DIGITS).Ok? by {
      hide NoncePoints;
    }
    SeatsOf(h, ts, q, signers, cs);
    hide *;
    SeatCount(signers, q);
    PointsIff(h, ts, q, cs, NB_DIGITS);
    forall i | 0 <= i < NB_DIGITS
      ensures HasSession(h, ts, q, cs, i) <==> NoncesForm(h, SeedsOf(signers), ts, q, i)
    {
      HonestSessionIff(h, ts, q, signers, cs, i);
    }
  }

  // ------------------------------------------------------------------- attesting

  /** A quorum as it signs: its members' nonce seeds, their Lagrange coefficients, their key
      shares, and the group key. */
  datatype Sitting = Sitting(q: seq<u16>, seeds: seq<Seed>, lambdas: seq<int>, shares: seq<int>, group: XOnlyKey,
                             odd: bool)

  predicate Even(w: Sitting) {
    |w.seeds| == |w.lambdas| == |w.shares| == |w.q|
  }

  /** The nonce point of a digit and the challenge on its outcome. */
  function DigitPoint(h: Hashes, w: Sitting, ts: Timestamp, i: nat): Option<PublicKey>
    requires Even(w)
  {
    var sum := QuorumNonce(h, w.seeds, ts, w.q, i, |w.q|) % N;
    if sum == 0 then None else Some(PublicOf(sum))
  }

  function DigitChallenge(h: Hashes, w: Sitting, r: PublicKey, d: Digit): Scalar {
    Challenge(h.env, XOf(r), w.group, h.digitMsg(d))
  }

  /** Member `k` can sign digit `i`: the challenge is not zero, and its partial signature, the
      nonce and the weighted key share with their signs, does not vanish. */
  ghost predicate ShareForms(h: Hashes, w: Sitting, ts: Timestamp, price: nat, i: nat, k: nat)
    requires Even(w) && k < |w.q| && i < NB_DIGITS
  {
    var r := DigitPoint(h, w, ts, i);
    && r.Some?
    && var e := DigitChallenge(h, w, r.value, Digits(price)[i]);
    && e != 0
    && Worth(IsOdd(h.env, r.value), w.odd, e, MemberNonce(h, w.seeds, ts, w.q, i, k), w.lambdas[k] * w.shares[k]) % N
      != 0
  }

  /** The partial signatures of the first `k + 1` members on digit `i` do not cancel. */
  ghost predicate SumForms(h: Hashes, w: Sitting, ts: Timestamp, price: nat, i: nat, k: nat)
    requires Even(w) && k < |w.q| && i < NB_DIGITS
  {
    var r := DigitPoint(h, w, ts, i);
    && r.Some?
    && var e := DigitChallenge(h, w, r.value, Digits(price)[i]);
    Worth(IsOdd(h.env, r.value), w.odd, e, QuorumNonce(h, w.seeds, ts, w.q, i, k + 1),
          Combination(w.lambdas[..k + 1], w.shares[..k + 1])) % N != 0
  }

  ghost predicate DigitSigns(h: Hashes, w: Sitting, ts: Timestamp, price: nat, i: nat)
    requires Even(w) && i < NB_DIGITS
  {
    forall k :: 0 <= k < |w.q| ==> ShareForms(h, w, ts, price, i, k) && SumForms(h, w, ts, price, i, k)
  }

  /** The tweaks of one partial signature. */
  lemma ShareDigitParts(h: Hashes, s: Signer, ts: Timestamp, q: seq<u16>, cs: seq<NonceCommitment>,
                        pos: nat, coeff: SecretKey, x: SecretKey, i: nat, d: Digit, des: seq<DigitCommit>,
                        r: PublicKey, rho: SecretKey)
    requires IsPrime(N) && pos < |q| == |des| && QuorumCommitments(q, cs, i) == Ok(des)
    requires NonceSession(h, ts, i, q, des).Some? && NonceSession(h, ts, i, q, des).value.0 == r
    requires rho == h.bindingFactor(q[pos], ts, i, q, des)
    ensures var e := Challenge(h.env, XOf(r), s.key.groupPubkey, h.digitMsg(d));
      var en, dn := h.bindingNonce(s.nonceSeed, ts, i), h.hidingNonce(s.nonceSeed, ts, i);
      && MulTweak(en, rho).Some? && MulTweak(coeff, x).Some?
      && var bound, lx := MulTweak(en, rho).value, MulTweak(coeff, x).value;
      ShareDigit(h, s, ts, q, cs, pos, coeff, x, i, d).Ok? <==>
        && AddTweak(dn, bound).Some? && MulTweak(lx, e).Some?
        && AddTweak(NegateIf(IsOdd(h.env, r), AddTweak(dn, bound).value),
                    NegateIf(s.key.pkOdd, MulTweak(lx, e).value)).Some?
  {
    MulTweakFails(h.bindingNonce(s.nonceSeed, ts, i), rho);
    MulTweakFails(coeff, x);
    hide IsPrime, MulTweak, AddTweak, IsOdd, XOf, Challenge, NoncePrefix, QuorumCommitments, NegateIf;
  }

  /** When those tweaks go through. */
  lemma TweaksIff(dn: SecretKey, en: SecretKey, rho: SecretKey, coeff: SecretKey, x: SecretKey, e: Scalar,
                  rOdd: bool, pkOdd: bool)
    requires IsPrime(N) && (dn + en * rho) % N != 0
    ensures MulTweak(en, rho).Some? && MulTweak(coeff, x).Some?
    ensures AddTweak(dn, MulTweak(en, rho).value).Some?
    ensures MulTweak(MulTweak(coeff, x).value, e).Some? <==> e != 0
    ensures e != 0 ==>
      var eff, part := AddTweak(dn, MulTweak(en, rho).value).value, MulTweak(MulTweak(coeff, x).value, e).value;
      AddTweak(NegateIf(rOdd, eff), NegateIf(pkOdd, part)).Some? <==>
        Worth(rOdd, pkOdd, e, dn + en * rho, coeff * x) % N != 0
  {
    hide *;
    MulTweakFails(en, rho);
    MulTweakFails(coeff, x);
    var bound, lx := MulTweak(en, rho).value, MulTweak(coeff, x).value;
    MulTweakCong(en, rho);
    MulTweakCong(coeff, x);
    CongRefl(N, dn);
    CongAdd(N, dn, dn, bound, en * rho);
    VanishesIff(dn + en * rho);
    AddTweakIs(dn, bound, dn + en * rho);
    MulTweakFails(lx, e);
    if e != 0 {
      MulTweakCong(lx, e);
      var eff, part := AddTweak(dn, bound).value, MulTweak(lx, e).value;
      AddedTweak(dn, bound);
      LastTweakIff(dn, en * rho, bound, eff, coeff, x, lx, e, part, rOdd, pkOdd, en, rho);
    }
  }

  lemma LastTweakIff(dn: int, er: int, bound: int, eff: SecretKey, coeff: int, x: int, lx: int, e: int,
                     part: SecretKey, rOdd: bool, pkOdd: bool, en: int, rho: int)
    requires er == en * rho && Cong(N, bound, er) && Cong(N, eff, dn + bound)
    requires Cong(N, lx, coeff * x) && Cong(N, part, lx * e)
    ensures AddTweak(NegateIf(rOdd, eff), NegateIf(pkOdd, part)).Some? <==>
      Worth(rOdd, pkOdd, e, dn + er, coeff * x) % N != 0
  {
    hide *;
    var a, b := NegateIf(rOdd, eff), NegateIf(pkOdd, part);
    var sum := a as int + b;
    CongRefl(N, sum);
    ShareWorth(rOdd, pkOdd, dn, en, rho, bound, eff, coeff, x, lx, e, part, sum);
    var v := Worth(rOdd, pkOdd, e, dn + er, coeff * x);
    AddTweakIs(a, b, v);
    VanishesIff(v);
  }

  lemma ContributionForms(h: Hashes, s: Signer, ts: Timestamp, q: seq<u16>, pos: nat, i: nat, des: seq<DigitCommit>)
    requires IsPrime(N) && pos < |q| == |des| && NonceSession(h, ts, i, q, des).Some?
    requires des[pos] == (PublicOf(h.hidingNonce(s.nonceSeed, ts, i)), PublicOf(h.bindingNonce(s.nonceSeed, ts, i)))
    ensures var rho := h.bindingFactor(q[pos], ts, i, q, des);
      var nonce := h.hidingNonce(s.nonceSeed, ts, i) + h.bindingNonce(s.nonceSeed, ts, i) * rho;
      Contribution(h, ts, i, q, des, pos) == nonce && nonce % N != 0
  {
    SessionIff(h, ts, i, q, des);
    assert Forms(h, ts, i, q, des, pos);
    FormsIs(h, ts, i, q, des, pos);
    TimesIs(h.bindingNonce(s.nonceSeed, ts, i), h.bindingFactor(q[pos], ts, i, q, des));
    hide IsPrime, NonceSession, NonceSum;
  }

  lemma ShareDigitIff(h: Hashes, s: Signer, ts: Timestamp, q: seq<u16>, cs: seq<NonceCommitment>,
                      pos: nat, coeff: SecretKey, x: SecretKey, i: nat, d: Digit, des: seq<DigitCommit>, r: PublicKey)
    requires IsPrime(N) && pos < |q| == |des| && QuorumCommitments(q, cs, i) == Ok(des)
    requires NonceSession(h, ts, i, q, des).Some? && NonceSession(h, ts, i, q, des).value.0 == r
    requires des[pos] == (PublicOf(h.hidingNonce(s.nonceSeed, ts, i)), PublicOf(h.bindingNonce(s.nonceSeed, ts, i)))
    ensures var e := Challenge(h.env, XOf(r), s.key.groupPubkey, h.digitMsg(d));
      ShareDigit(h, s, ts, q, cs, pos, coeff, x, i, d).Ok? <==>
        && e != 0
        && Worth(IsOdd(h.env, r), s.key.pkOdd, e, Contribution(h, ts, i, q, des, pos), coeff * x) % N != 0
  {
    hide *;
    var rho: SecretKey := h.bindingFactor(q[pos], ts, i, q, des);
    var e := Challenge(h.env, XOf(r), s.key.groupPubkey, h.digitMsg(d));
    ContributionForms(h, s, ts, q, pos, i, des);
    ShareDigitParts(h, s, ts, q, cs, pos, coeff, x, i, d, des, r, rho);
    TweaksIff(h.hidingNonce(s.nonceSeed, ts, i), h.bindingNonce(s.nonceSeed, ts, i), rho, coeff, x, e,
              IsOdd(h.env, r), s.key.pkOdd);
  }

  lemma AddedTweak(a: SecretKey, t: Scalar)
    requires AddTweak(a, t).Some?
    ensures Cong(N, AddTweak(a, t).value, a + t)
  {
  }

  lemma {:induction false} SharePrefixIff(h: Hashes, s: Signer, ts: Timestamp, q: seq<u16>, cs: seq<NonceCommitment>,
                                          pos: nat, coeff: SecretKey, x: SecretKey, ds: seq<Digit>, k: nat)
    requires pos < |q| && k <= |ds|
    ensures SharePrefix(h, s, ts, q, cs, pos, coeff, x, ds, k).Ok? <==>
      forall i :: 0 <= i < k ==> ShareDigit(h, s, ts, q, cs, pos, coeff, x, i, ds[i]).Ok?
  {
    hide ShareDigit;
    if k > 0 { SharePrefixIff(h, s, ts, q, cs, pos, coeff, x, ds, k - 1); }
  }

  lemma ShareOfIff(h: Hashes, s: Signer, ts: Timestamp, price: nat, q: seq<u16>, cs: seq<NonceCommitment>, k: nat)
    requires IsPrime(N) && CheckQuorum(q, s.key.n, s.key.t).Ok? && k < |q| && s.key.index == q[k] && 0 < s.key.x < N
    requires (forall m :: 0 <= m < |q| ==> 0 < q[m]) && LambdaFor(q[k], q).Ok?
    ensures ShareOf(h, s, ts, price, q, cs).Ok? <==>
      SharePrefix(h, s, ts, q, cs, k, LambdaFor(q[k], q).value, s.key.x, Digits(price), NB_DIGITS).Ok?
  {
    CheckedIsQuorum(q, s.key.n, s.key.t);
    var qi: seq<Index> := q;
    PositionIs(qi, k);
    hide IsPrime, LambdaFor, SharePrefix, Digits, CheckQuorum, Distinctive, Position;
  }

  lemma {:induction false} PartialsIff(h: Hashes, signers: seq<Signer>, ts: Timestamp, price: nat, q: seq<u16>,
                                       cs: seq<NonceCommitment>, k: nat)
    requires IsPrime(N) && k <= |signers|
    ensures PartialsOf(h, signers, ts, price, q, cs, k).Ok? <==>
      forall j :: 0 <= j < k ==> ShareOf(h, signers[j], ts, price, q, cs).Ok?
  {
    hide IsPrime, ShareOf;
    if k > 0 { PartialsIff(h, signers, ts, price, q, cs, k - 1); }
  }

  // -------------------------------------------------------------- adding up a digit

  lemma SumStepIff(q: seq<u16>, shares: seq<SigShare>, i: nat, k: nat)
    requires 0 < k <= |q| && SumShares(q, shares, i, k - 1).Ok?
    requires FindSigShare(shares, q[k - 1]).Some? && i < |FindSigShare(shares, q[k - 1]).value.digits|
    requires 0 < FindSigShare(shares, q[k - 1]).value.digits[i] < N
    ensures SumShares(q, shares, i, k).Ok? <==>
      AddInto(SumShares(q, shares, i, k - 1).value, FindSigShare(shares, q[k - 1]).value.digits[i]).Some?
  {
    hide AddInto, FindSigShare;
  }

  lemma SumIsParts(acc: Option<SecretKey>, k: nat, v: int)
    requires SumIs(acc, k, v)
    ensures (acc.Some? ==> Cong(N, acc.value, v)) && (acc.None? ==> v == 0)
  {
  }

  lemma SumFormsIff(h: Hashes, ts: Timestamp, q: seq<u16>, des: seq<DigitCommit>, shares: seq<SigShare>,
                    rOdd: bool, pkOdd: bool, e: int, i: nat, ls: seq<int>, xs: seq<int>, k: nat)
    requires |des| == |q| == |ls| == |xs| && 0 < k <= |q|
    requires Worthy(h, ts, q, des, shares, rOdd, pkOdd, e, i, ls, xs)
    requires SumShares(q, shares, i, k - 1).Ok?
    requires FindSigShare(shares, q[k - 1]).Some? && i < |FindSigShare(shares, q[k - 1]).value.digits|
    requires 0 < FindSigShare(shares, q[k - 1]).value.digits[i] < N
    ensures SumShares(q, shares, i, k).Ok? <==>
      Worth(rOdd, pkOdd, e, NonceSum(h, ts, i, q, des, k), Combination(ls[..k], xs[..k])) % N != 0
  {
    hide *;
    SumStepIff(q, shares, i, k);
    SumSharesIs(h, ts, q, des, shares, rOdd, pkOdd, e, i, ls, xs, k - 1);
    WorthyAt(h, ts, q, des, shares, rOdd, pkOdd, e, i, ls, xs, k - 1);
    var acc, z := SumShares(q, shares, i, k - 1).value, FindSigShare(shares, q[k - 1]).value.digits[i];
    var a, b := NonceSum(h, ts, i, q, des, k - 1), Combination(ls[..k - 1], xs[..k - 1]);
    var c, d := Contribution(h, ts, i, q, des, k - 1), ls[k - 1] * xs[k - 1];
    SumIsParts(acc, k - 1, Worth(rOdd, pkOdd, e, a, b));
    AddVanishes(acc, z, Worth(rOdd, pkOdd, e, a, b), Worth(rOdd, pkOdd, e, c, d));
    WorthAdds(rOdd, pkOdd, e, a, b, c, d);
    CombinationSnoc(ls, xs, k - 1);
    NonceSumStep(h, ts, i, q, des, k - 1);
    VanishesIff(Worth(rOdd, pkOdd, e, NonceSum(h, ts, i, q, des, k), Combination(ls[..k], xs[..k])));
  }

  ghost predicate Sums(h: Hashes, ts: Timestamp, q: seq<u16>, des: seq<DigitCommit>, rOdd: bool, pkOdd: bool, e: int,
                       i: nat, ls: seq<int>, xs: seq<int>, k: nat)
    requires k < |q| == |des| == |ls| == |xs|
  {
    Worth(rOdd, pkOdd, e, NonceSum(h, ts, i, q, des, k + 1), Combination(ls[..k + 1], xs[..k + 1])) % N != 0
  }

  lemma {:induction false} SumSharesIff(h: Hashes, ts: Timestamp, q: seq<u16>, des: seq<DigitCommit>,
                                        shares: seq<SigShare>,
                                        rOdd: bool, pkOdd: bool, e: int, i: nat, ls: seq<int>, xs: seq<int>, k: nat)
    requires |des| == |q| == |ls| == |xs| && k <= |q|
    requires Worthy(h, ts, q, des, shares, rOdd, pkOdd, e, i, ls, xs)
    requires forall j :: 0 <= j < |q| ==> InRange(q, shares, i, j)
    ensures SumShares(q, shares, i, k).Ok? <==>
      forall j :: 0 <= j < k ==> Sums(h, ts, q, des, rOdd, pkOdd, e, i, ls, xs, j)
  {
    hide Worthy, Worth, NonceSum, Combination, FindSigShare, AddInto;
    if k > 0 {
      hide SumShares;
      SumSharesIff(h, ts, q, des, shares, rOdd, pkOdd, e, i, ls, xs, k - 1);
      assert InRange(q, shares, i, k - 1);
      if SumShares(q, shares, i, k - 1).Ok? {
        SumFormsIff(h, ts, q, des, shares, rOdd, pkOdd, e, i, ls, xs, k);
        assert SumShares(q, shares, i, k).Ok? <==> Sums(h, ts, q, des, rOdd, pkOdd, e, i, ls, xs, k - 1);
      } else {
        SumSharesFails(q, shares, i, k - 1, k);
      }
      hide Sums, InRange;
    }
  }

  predicate InRange(q: seq<u16>, shares: seq<SigShare>, i: nat, j: nat)
    requires j < |q|
  {
    var share := FindSigShare(shares, q[j]);
    share.Some? && i < |share.value.digits| && 0 < share.value.digits[i] < N
  }

  // ----------------------------------------------------------------- the whole quorum

  /** The quorum of these signers. */
  ghost function SittingOf(q: seq<u16>, signers: seq<Signer>, group: XOnlyKey, odd: bool): (w: Sitting)
    requires IsPrime(N) && Lambdable(q) && |signers| == |q|
    ensures Even(w) && w.q == q && w.group == group && w.odd == odd && w.seeds == SeedsOf(signers)
    ensures w.lambdas == Lambdas(q) && w.shares == KeyShares(signers)
  {
    Sitting(q, SeedsOf(signers), Lambdas(q), KeyShares(signers), group, odd)
  }

  lemma PointOfDigit(h: Hashes, w: Sitting, ts: Timestamp, i: nat)
    requires Even(w) && NonceSession(h, ts, i, w.q, Published(h, w.seeds, ts, i)).Some?
    ensures DigitPoint(h, w, ts, i) == Some(NonceSession(h, ts, i, w.q, Published(h, w.seeds, ts, i)).value.0)
  {
    var des := Published(h, w.seeds, ts, i);
    var r := NonceSession(h, ts, i, w.q, des).value.0;
    var sum := QuorumNonce(h, w.seeds, ts, w.q, i, |w.q|);
    assert r.log == sum % N by {
      hide *;
      SessionIs(h, ts, i, w.q, des);
      SumIsNonces(h, w.seeds, ts, w.q, i, |w.q|);
      CongModEq(N, r.log, sum);
      SmallMod(r.log, N);
    }
    hide NonceSession, QuorumNonce, Published;
  }

  /** Keys as key generation leaves them. */
  predicate Ready(signers: seq<Signer>, q: seq<u16>, n: u16, t: u16, group: XOnlyKey, odd: bool) {
    && |signers| == |q| && CheckQuorum(q, n, t).Ok?
    && forall k :: 0 <= k < |q| ==> ReadyKey(signers[k].key, q[k], n, t, group, odd)
  }

  predicate ReadyKey(key: KeyShare, index: nat, n: u16, t: u16, group: XOnlyKey, odd: bool) {
    && key.index == index && key.n == n && key.t == t && 0 < key.x < N
    && key.groupPubkey == group && key.pkOdd == odd
  }

  lemma PublishedAt(h: Hashes, signers: seq<Signer>, ts: Timestamp, i: nat, k: nat)
    requires k < |signers|
    ensures Published(h, SeedsOf(signers), ts, i)[k] ==
      (PublicOf(h.hidingNonce(signers[k].nonceSeed, ts, i)), PublicOf(h.bindingNonce(signers[k].nonceSeed, ts, i)))
  {
  }

  lemma ShareFormsIs(h: Hashes, w: Sitting, ts: Timestamp, price: nat, i: nat, k: nat, r: PublicKey, d: Digit, l: int,
                     x: int)
    requires Even(w) && k < |w.q| && i < NB_DIGITS && DigitPoint(h, w, ts, i) == Some(r) && Digits(price)[i] == d
    requires w.lambdas[k] == l && w.shares[k] == x
    ensures var e := Challenge(h.env, XOf(r), w.group, h.digitMsg(d));
      ShareForms(h, w, ts, price, i, k) <==>
        e != 0 && Worth(IsOdd(h.env, r), w.odd, e, MemberNonce(h, w.seeds, ts, w.q, i, k), l * x) % N != 0
  {
    hide Challenge, XOf, Worth, MemberNonce, IsOdd, Digits, DigitPoint;
  }

  /** One member, one digit. */
  lemma MemberDigitIff(h: Hashes, ts: Timestamp, price: nat, q: seq<u16>, signers: seq<Signer>,
                       cs: seq<NonceCommitment>, n: u16, t: u16, group: XOnlyKey, odd: bool, k: nat, i: nat)
    requires IsPrime(N) && Lambdable(q) && Ready(signers, q, n, t, group, odd) && k < |q| && i < NB_DIGITS
    requires HonestCommitments(h, ts, q, signers, cs) && HasSession(h, ts, q, cs, i)
    ensures (forall m :: 0 <= m < |q| ==> 0 < q[m]) && LambdaFor(q[k], q).Ok?
    ensures 0 < signers[k].key.x < N && |Digits(price)| == NB_DIGITS
    ensures ShareDigit(h, signers[k], ts, q, cs, k, LambdaFor(q[k], q).value, signers[k].key.x, i, Digits(price)[i]).Ok?
      <==> ShareForms(h, SittingOf(q, signers, group, odd), ts, price, i, k)
  {
    LambdableAt(q, k);
    ReadyAt(signers, q, n, t, group, odd, k);
    HonestArePublished(h, ts, q, signers, cs, i);
    var w := SittingOf(q, signers, group, odd);
    var des := Published(h, w.seeds, ts, i);
    assert NonceSession(h, ts, i, q, des).Some? by { hide NonceSession, QuorumCommitments; }
    hide *;
    var r, d := NonceSession(h, ts, i, q, des).value.0, Digits(price)[i];
    PointOfDigit(h, w, ts, i);
    PublishedAt(h, signers, ts, i, k);
    var l, x := LambdaFor(q[k], q).value, signers[k].key.x;
    SharesAt(signers, k);
    ShareFormsIs(h, w, ts, price, i, k, r, d, l, x);
    ContributionIs(h, w.seeds, ts, q, i, k);
    ShareDigitIff(h, signers[k], ts, q, cs, k, l, x, i, d, des, r);
  }

  lemma SharesAt(signers: seq<Signer>, k: nat)
    requires k < |signers|
    ensures KeyShares(signers)[k] == signers[k].key.x
  {
  }

  lemma ReadyAt(signers: seq<Signer>, q: seq<u16>, n: u16, t: u16, group: XOnlyKey, odd: bool, k: nat)
    requires Ready(signers, q, n, t, group, odd) && k < |q|
    ensures |signers| == |q| && CheckQuorum(q, n, t).Ok?
    ensures var key := signers[k].key;
      && key.index == q[k] && key.n == n && key.t == t && 0 < key.x < N && key.groupPubkey == group && key.pkOdd == odd
  {
    hide CheckQuorum;
  }

  /** One member, all digits. */
  lemma MemberSignsIff(h: Hashes, ts: Timestamp, price: nat, q: seq<u16>, signers: seq<Signer>,
                       cs: seq<NonceCommitment>, n: u16, t: u16, group: XOnlyKey, odd: bool, k: nat)
    requires IsPrime(N) && Lambdable(q) && Ready(signers, q, n, t, group, odd) && k < |q|
    requires HonestCommitments(h, ts, q, signers, cs)
    requires forall i :: 0 <= i < NB_DIGITS ==> HasSession(h, ts, q, cs, i)
    ensures |signers| == |q|
    ensures ShareOf(h, signers[k], ts, price, q, cs).Ok? <==>
      forall i :: 0 <= i < NB_DIGITS ==> ShareForms(h, SittingOf(q, signers, group, odd), ts, price, i, k)
  {
    hide *;
    ReadyAt(signers, q, n, t, group, odd, k);
    LambdableAt(q, k);
    var l, x: SecretKey := LambdaFor(q[k], q).value, signers[k].key.x;
    ShareOfIff(h, signers[k], ts, price, q, cs, k);
    SharePrefixIff(h, signers[k], ts, q, cs, k, l, x, Digits(price), NB_DIGITS);
    forall i | 0 <= i < NB_DIGITS
      ensures ShareDigit(h, signers[k], ts, q, cs, k, l, x, i, Digits(price)[i]).Ok? <==>
        ShareForms(h, SittingOf(q, signers, group, odd), ts, price, i, k)
    {
      MemberDigitIff(h, ts, price, q, signers, cs, n, t, group, odd, k, i);
    }
  }

  /** Honest partial signatures are nonzero scalars. */
  lemma HonestInRange(h: Hashes, ts: Timestamp, price: nat, q: seq<u16>, signers: seq<Signer>,
                      cs: seq<NonceCommitment>, shares: seq<SigShare>, i: nat, k: nat)
    requires IsPrime(N) && HonestCommitments(h, ts, q, signers, cs)
    requires HonestShares(h, ts, price, q, signers, cs, shares) && i < NB_DIGITS && k < |q|
    ensures InRange(q, shares, i, k)
  {
    HonestSharesAt(h, ts, price, q, signers, cs, shares, k);
    var s := signers[k];
    SeatsAt(h, ts, q, signers, cs, k);
    ShareOfUnfold(h, s, ts, price, q, cs, k);
    SharePrefixAt(h, s, ts, q, cs, k, LambdaFor(q[k], q).value, s.key.x, Digits(price), NB_DIGITS, i);
    hide IsPrime, HonestCommitments, HonestShares, ShareOf, FindSigShare, SharePrefix, ShareDigit, LambdaFor, Digits,
      Distinctive;
  }

  lemma SumFormsIs(h: Hashes, w: Sitting, ts: Timestamp, price: nat, i: nat, k: nat, r: PublicKey, e: Scalar)
    requires Even(w) && k < |w.q| && i < NB_DIGITS && DigitPoint(h, w, ts, i) == Some(r)
    requires e == Challenge(h.env, XOf(r), w.group, h.digitMsg(Digits(price)[i]))
    ensures Sums(h, ts, w.q, Published(h, w.seeds, ts, i), IsOdd(h.env, r), w.odd, e, i, w.lambdas, w.shares, k) <==>
      SumForms(h, w, ts, price, i, k)
  {
    hide Challenge, XOf, Worth, QuorumNonce, NonceSum, IsOdd, Digits, DigitPoint, Combination, Published;
    SumIsNonces(h, w.seeds, ts, w.q, i, k + 1);
  }

  lemma DigitParts(h: Hashes, ts: Timestamp, q: seq<u16>, cs: seq<NonceCommitment>, shares: seq<SigShare>, i: nat)
    requires HasSession(h, ts, q, cs, i) && |q| > 0
    ensures AggregateDigit(h, ts, q, cs, shares, i).Ok? <==> SumShares(q, shares, i, |q|).Ok?
  {
    hide QuorumCommitments, NonceSession, FindSigShare, AddInto, XOf;
  }

  /** All members, one digit. */
  lemma DigitAddsIff(h: Hashes, ts: Timestamp, price: nat, q: seq<u16>, signers: seq<Signer>,
                     cs: seq<NonceCommitment>, shares: seq<SigShare>, poly: seq<int>, group: XOnlyKey, odd: bool,
                       i: nat)
    requires IsPrime(N) && Lambdable(q) && i < NB_DIGITS && |q| > 0
    requires HonestCommitments(h, ts, q, signers, cs) && HonestShares(h, ts, price, q, signers, cs, shares)
    requires KeysOn(h, signers, poly, group, odd) && HasSession(h, ts, q, cs, i)
    ensures |signers| == |q|
    ensures AggregateDigit(h, ts, q, cs, shares, i).Ok? <==>
      forall k :: 0 <= k < |q| ==> SumForms(h, SittingOf(q, signers, group, odd), ts, price, i, k)
  {
    LambdableAt(q, 0);
    HonestArePublished(h, ts, q, signers, cs, i);
    var w := SittingOf(q, signers, group, odd);
    var des := Published(h, w.seeds, ts, i);
    assert NonceSession(h, ts, i, q, des).Some? by { hide NonceSession, QuorumCommitments; }
    hide *;
    DigitParts(h, ts, q, cs, shares, i);
    var r := NonceSession(h, ts, i, q, des).value.0;
    var e := Challenge(h.env, XOf(r), group, h.digitMsg(Digits(price)[i]));
    PointOfDigit(h, w, ts, i);
    AllWorthy(h, ts, price, q, signers, cs, shares, poly, group, odd, i, des, r, e);
    forall k | 0 <= k < |q|
      ensures InRange(q, shares, i, k)
      ensures Sums(h, ts, q, des, IsOdd(h.env, r), odd, e, i, w.lambdas, w.shares, k) <==>
        SumForms(h, w, ts, price, i, k)
    {
      HonestInRange(h, ts, price, q, signers, cs, shares, i, k);
      SumFormsIs(h, w, ts, price, i, k, r, e);
    }
    SumSharesIff(h, ts, q, des, shares, IsOdd(h.env, r), odd, e, i, w.lambdas, w.shares, |q|);
  }

  lemma {:induction false} AggregateIff(h: Hashes, ts: Timestamp, q: seq<u16>, cs: seq<NonceCommitment>,
                                        shares: seq<SigShare>, k: nat)
    ensures AggregatePrefix(h, ts, q, cs, shares, k).Ok? <==>
      forall i :: 0 <= i < k ==> AggregateDigit(h, ts, q, cs, shares, i).Ok?
  {
    hide AggregateDigit;
    if k > 0 { AggregateIff(h, ts, q, cs, shares, k - 1); }
  }

  lemma QuorumLambdable(q: seq<u16>, n: u16, t: u16)
    requires IsPrime(N) && CheckQuorum(q, n, t).Ok? && |q| > 1
    ensures Lambdable(q)
  {
    CheckedIsQuorum(q, n, t);
    hide IsPrime, LambdaFor, CheckQuorum, HasOther, Nodes;
    forall k | 0 <= k < |q|
      ensures LambdaFor(q[k], q).Ok?
    {
      OtherMember(q, k);
      LambdaIs(q[k], q);
    }
  }

  /** The two steps of attesting: every member signs, and the digits are added up. */
  ghost predicate Completes(h: Hashes, ts: Timestamp, price: nat, q: seq<u16>, signers: seq<Signer>)
    requires IsPrime(N)
  {
    var cs := Commitments(h, signers, ts);
    var shares := PartialsOf(h, signers, ts, price, q, cs, |signers|);
    shares.Ok? && AggregateAttestation(h, ts, price, q, cs, shares.value).Ok?
  }

  lemma CompletesIs(h: Hashes, ts: Timestamp, price: nat, q: seq<u16>, signers: seq<Signer>)
    requires IsPrime(N)
    ensures var cs := Commitments(h, signers, ts);
      var shares := PartialsOf(h, signers, ts, price, q, cs, |signers|);
      Completes(h, ts, price, q, signers) <==>
        shares.Ok? && AggregatePrefix(h, ts, q, cs, shares.value, NB_DIGITS).Ok?
  {
    hide IsPrime, PartialsOf, AggregatePrefix, Commitments;
  }

  ghost predicate AllShareForm(h: Hashes, w: Sitting, ts: Timestamp, price: nat, k: nat)
    requires Even(w) && k < |w.q|
  {
    forall i :: 0 <= i < NB_DIGITS ==> ShareForms(h, w, ts, price, i, k)
  }

  ghost predicate AllSumForm(h: Hashes, w: Sitting, ts: Timestamp, price: nat, i: nat)
    requires Even(w) && i < NB_DIGITS
  {
    forall k :: 0 <= k < |w.q| ==> SumForms(h, w, ts, price, i, k)
  }

  lemma SignsAll(h: Hashes, w: Sitting, ts: Timestamp, price: nat)
    requires Even(w)
    ensures (forall i :: 0 <= i < NB_DIGITS ==> DigitSigns(h, w, ts, price, i)) <==>
      && (forall k :: 0 <= k < |w.q| ==> AllShareForm(h, w, ts, price, k))
      && forall i :: 0 <= i < NB_DIGITS ==> AllSumForm(h, w, ts, price, i)
  {
    hide ShareForms, SumForms;
    if forall i :: 0 <= i < NB_DIGITS ==> DigitSigns(h, w, ts, price, i) {
      forall k | 0 <= k < |w.q|
        ensures AllShareForm(h, w, ts, price, k)
      {
        forall i | 0 <= i < NB_DIGITS
          ensures ShareForms(h, w, ts, price, i, k)
        {
          assert DigitSigns(h, w, ts, price, i);
        }
      }
      forall i | 0 <= i < NB_DIGITS
        ensures AllSumForm(h, w, ts, price, i)
      {
        assert DigitSigns(h, w, ts, price, i);
      }
    }
    if && (forall k :: 0 <= k < |w.q| ==> AllShareForm(h, w, ts, price, k))
      && forall i :: 0 <= i < NB_DIGITS ==> AllSumForm(h, w, ts, price, i)
    {
      forall i, k | 0 <= i < NB_DIGITS && 0 <= k < |w.q|
        ensures ShareForms(h, w, ts, price, i, k) && SumForms(h, w, ts, price, i, k)
      {
        assert AllShareForm(h, w, ts, price, k) && AllSumForm(h, w, ts, price, i);
      }
    }
  }

  lemma PartialsFormIff(h: Hashes, ts: Timestamp, price: nat, q: seq<u16>, signers: seq<Signer>, n: u16, t: u16,
                        group: XOnlyKey, odd: bool)
    requires IsPrime(N) && Lambdable(q) && Ready(signers, q, n, t, group, odd)
    requires HonestCommitments(h, ts, q, signers, Commitments(h, signers, ts))
    requires forall i :: 0 <= i < NB_DIGITS ==> HasSession(h, ts, q, Commitments(h, signers, ts), i)
    ensures |signers| == |q|
    ensures PartialsOf(h, signers, ts, price, q, Commitments(h, signers, ts), |signers|).Ok? <==>
      forall k :: 0 <= k < |q| ==> AllShareForm(h, SittingOf(q, signers, group, odd), ts, price, k)
  {
    assert |signers| == |q|;
    hide IsPrime, Lambdable, Ready, HonestCommitments, HasSession, PartialsOf, ShareOf, ShareForms, SittingOf,
      Commitments, CheckQuorum, QuorumCommitments, NonceSession;
    var cs := Commitments(h, signers, ts);
    PartialsIff(h, signers, ts, price, q, cs, |signers|);
    forall k | 0 <= k < |q|
      ensures ShareOf(h, signers[k], ts, price, q, cs).Ok? <==>
        AllShareForm(h, SittingOf(q, signers, group, odd), ts, price, k)
    {
      MemberSignsIff(h, ts, price, q, signers, cs, n, t, group, odd, k);
    }
  }

  lemma SumsFormIff(h: Hashes, ts: Timestamp, price: nat, q: seq<u16>, signers: seq<Signer>, cs: seq<NonceCommitment>,
                    shares: seq<SigShare>, poly: seq<int>, group: XOnlyKey, odd: bool)
    requires IsPrime(N) && Lambdable(q) && |q| > 0 && KeysOn(h, signers, poly, group, odd)
    requires HonestCommitments(h, ts, q, signers, cs) && HonestShares(h, ts, price, q, signers, cs, shares)
    requires forall i :: 0 <= i < NB_DIGITS ==> HasSession(h, ts, q, cs, i)
    ensures |signers| == |q|
    ensures AggregatePrefix(h, ts, q, cs, shares, NB_DIGITS).Ok? <==>
      forall i :: 0 <= i < NB_DIGITS ==> AllSumForm(h, SittingOf(q, signers, group, odd), ts, price, i)
  {
    assert |signers| == |q|;
    hide IsPrime, Lambdable, KeysOn, HonestCommitments, HonestShares, HasSession, AggregatePrefix, AggregateDigit,
      SumForms, SittingOf, QuorumCommitments, NonceSession;
    AggregateIff(h, ts, q, cs, shares, NB_DIGITS);
    forall i | 0 <= i < NB_DIGITS
      ensures AggregateDigit(h, ts, q, cs, shares, i).Ok? <==>
        AllSumForm(h, SittingOf(q, signers, group, odd), ts, price, i)
    {
      DigitAddsIff(h, ts, price, q, signers, cs, shares, poly, group, odd, i);
    }
  }

  /** Once its nonces are announced, a quorum attests exactly when every digit signs. */
  lemma CompletesIff(h: Hashes, ts: Timestamp, price: nat, q: seq<u16>, signers: seq<Signer>, n: u16, t: u16,
                     poly: seq<int>, group: XOnlyKey, odd: bool)
    requires IsPrime(N) && Lambdable(q) && |q| > 1 && Ready(signers, q, n, t, group, odd)
    requires Seats(signers, q) && KeysOn(h, signers, poly, group, odd)
    requires forall i, m :: 0 <= i < m < |signers| ==> signers[i].key.index != signers[m].key.index
    requires HonestCommitments(h, ts, q, signers, Commitments(h, signers, ts))
    requires forall i :: 0 <= i < NB_DIGITS ==> HasSession(h, ts, q, Commitments(h, signers, ts), i)
    ensures |signers| == |q|
    ensures Completes(h, ts, price, q, signers) <==>
      forall i :: 0 <= i < NB_DIGITS ==> DigitSigns(h, SittingOf(q, signers, group, odd), ts, price, i)
  {
    hide *;
    var cs := Commitments(h, signers, ts);
    SeatCount(signers, q);
    PartialsFormIff(h, ts, price, q, signers, n, t, group, odd);
    CompletesIs(h, ts, price, q, signers);
    SignsAll(h, SittingOf(q, signers, group, odd), ts, price);
    var shares := PartialsOf(h, signers, ts, price, q, cs, |signers|);
    if shares.Ok? {
      AllHonest(h, signers, ts, price, q);
      SumsFormIff(h, ts, price, q, signers, cs, shares.value, poly, group, odd);
    }
  }

  // ------------------------------------------------------------------ from the seeds

  lemma FinalKeyRange(h: Hashes, index: Index, n: u16, t: u16, round1: seq<Round1Package>, shares: seq<Round2Share>)
    requires FinalizeKey(h, index, n, t, round1, shares).Ok?
    ensures 0 < FinalizeKey(h, index, n, t, round1, shares).value.x < N
  {
    hide FinalizePrefix, XOf, IsOdd;
    var x: SecretKey := FinalizePrefix(h, index, round1, shares, n).value.0.value;
    assert FinalizeKey(h, index, n, t, round1, shares).value.x == x;
  }

  lemma SignerRange(h: Hashes, n: u16, t: u16, dealers: seq<Dealer>, k: nat)
    requires k < |dealers| && Dealt(dealers) && FinalizedSigner(h, n, t, dealers, k).Ok?
    ensures 0 < FinalizedSigner(h, n, t, dealers, k).value.key.x < N
  {
    hide FinalizeKey, SharesTo, Dealt;
    FinalKeyRange(h, dealers[k].index, n, t, Broadcasts(dealers), SharesTo(dealers, dealers[k].index, |dealers|).value);
  }

  lemma CohortKey(h: Hashes, n: u16, t: u16, localSeed: Seed, j: nat)
    requires Keygen(h, n, t, localSeed).Ok? && j < n
    ensures |Keygen(h, n, t, localSeed).value.signers| == n
    ensures var key := Keygen(h, n, t, localSeed).value.signers[j].key;
      key.index == j + 1 && key.n == n && key.t == t && 0 < key.x < N
  {
    hide *;
    KeygenDraws(h, n, t, localSeed);
    var dealers := Dealers(h, n, t, localSeed, n).value;
    DealersAre(h, n, t, localSeed, n);
    KeygenParts(h, n, t, localSeed);
    SignersAt(h, n, t, dealers, n, j);
    SignerRange(h, n, t, dealers, j);
    var c, poly := Keygen(h, n, t, localSeed).value, CohortPoly(h, n, t, localSeed);
    assert Holds(h, n, t, localSeed, poly, j, c.signers[j]);
    HoldsKey(h, n, t, localSeed, poly, j, c.signers[j]);
  }

  lemma HoldsKey(h: Hashes, n: u16, t: u16, localSeed: Seed, poly: seq<int>, j: nat, s: Signer)
    requires Holds(h, n, t, localSeed, poly, j, s)
    ensures s.key.index == j + 1 && s.key.n == n && s.key.t == t
  {
    hide Cong;
  }

  lemma SeatedKey(c: Cohort, q: seq<u16>, k: nat)
    requires QuorumSigners(c, q).Ok? && k < |q|
    ensures 0 < q[k] <= |c.signers| && QuorumSigners(c, q).value[k] == c.signers[q[k] - 1]
    ensures CheckQuorum(q, c.n, c.t).Ok?
  {
    CheckedIsQuorum(q, c.n, c.t);
  }

  lemma CheckedSigners(c: Cohort, q: seq<u16>)
    requires |c.signers| == c.n
    ensures QuorumSigners(c, q).Ok? <==> CheckQuorum(q, c.n, c.t).Ok?
  {
    if CheckQuorum(q, c.n, c.t).Ok? { CheckedIsQuorum(q, c.n, c.t); }
  }

  lemma CohortReady(h: Hashes, n: u16, t: u16, localSeed: Seed, q: seq<u16>)
    requires Keygen(h, n, t, localSeed).Ok? && QuorumSigners(Keygen(h, n, t, localSeed).value, q).Ok?
    ensures |q| > 0 && Dealers(h, n, t, localSeed, n).Ok?
    ensures var c := Keygen(h, n, t, localSeed).value;
      var signers := QuorumSigners(c, q).value;
      && Ready(signers, q, n, t, c.groupPubkey, signers[0].key.pkOdd) && Seats(signers, q)
      && KeysOn(h, signers, CohortPoly(h, n, t, localSeed), c.groupPubkey, signers[0].key.pkOdd)
  {
    hide *;
    KeygenKeys(h, n, t, localSeed);
    KeygenDraws(h, n, t, localSeed);
    var c, poly := Keygen(h, n, t, localSeed).value, CohortPoly(h, n, t, localSeed);
    var signers := QuorumSigners(c, q).value;
    var odd := Seated(h, c, poly, q);
    CheckedIsQuorum(q, c.n, c.t);
    forall k | 0 <= k < |q|
      ensures ReadyKey(signers[k].key, q[k], n, t, c.groupPubkey, odd)
    {
      SeatedKey(c, q, k);
      CohortKey(h, n, t, localSeed, q[k] - 1);
      KeysOnAt(h, signers, poly, c.groupPubkey, odd, k);
      ReadyKeyIs(signers[k].key, q[k], n, t, c.groupPubkey, odd);
    }
    KeysOnAt(h, signers, poly, c.groupPubkey, odd, 0);
    ReadyIs(signers, q, n, t, c.groupPubkey, odd);
  }

  lemma ReadyKeyIs(key: KeyShare, index: nat, n: u16, t: u16, group: XOnlyKey, odd: bool)
    requires key.index == index && key.n == n && key.t == t && 0 < key.x < N
    requires key.groupPubkey == group && key.pkOdd == odd
    ensures ReadyKey(key, index, n, t, group, odd)
  {
  }

  lemma ReadyIs(signers: seq<Signer>, q: seq<u16>, n: u16, t: u16, group: XOnlyKey, odd: bool)
    requires |signers| == |q| && CheckQuorum(q, n, t).Ok?
    requires forall k :: 0 <= k < |q| ==> ReadyKey(signers[k].key, q[k], n, t, group, odd)
    ensures Ready(signers, q, n, t, group, odd)
  {
    hide ReadyKey, CheckQuorum;
  }

  /** A cohort announces exactly for a quorum of at least `t` distinct members, none of whose
      nonces or sums of nonces vanishes on any digit. */
  lemma CohortAnnouncesIff(h: Hashes, n: u16, t: u16, localSeed: Seed, ts: Timestamp, q: seq<u16>)
    requires IsPrime(N) && Keygen(h, n, t, localSeed).Ok?
    ensures Announce(h, Keygen(h, n, t, localSeed).value, ts, q).Ok? <==>
      && |q| >= t && (forall k :: 0 <= k < |q| ==> 1 <= q[k] <= n)
      && (forall i, j :: 0 <= i < j < |q| ==> q[i] != q[j])
      && forall i :: 0 <= i < NB_DIGITS ==> NoncesForm(h, SeatSeeds(h, localSeed, q), ts, q, i)
  {
    var c := Keygen(h, n, t, localSeed).value;
    assert Announce(h, c, ts, q).Ok? ==> QuorumSigners(c, q).Ok? by { hide Keygen; }
    hide *;
    KeygenKeys(h, n, t, localSeed);
    KeygenDraws(h, n, t, localSeed);
    CheckedSigners(c, q);
    QuorumIff(q, n, t);
    if QuorumSigners(c, q).Ok? {
      var signers := QuorumSigners(c, q).value;
      SignersSeeded(h, n, t, localSeed, q);
      CohortHonest(h, c, CohortPoly(h, n, t, localSeed), ts, q);
      AnnounceIs(h, c, ts, q);
      AnnouncesIff(h, ts, q, signers, Commitments(h, signers, ts));
    }
  }

  lemma AttestIs(h: Hashes, c: Cohort, ts: Timestamp, price: nat, q: seq<u16>)
    requires IsPrime(N)
    ensures Attest(h, c, ts, price, q).Ok? <==>
      QuorumSigners(c, q).Ok? && Completes(h, ts, price, q, QuorumSigners(c, q).value)
  {
    hide IsPrime, QuorumSigners, PartialsOf, AggregateAttestation, Commitments;
  }

  lemma AnnouncedSessions(h: Hashes, ts: Timestamp, q: seq<u16>, cs: seq<NonceCommitment>)
    ensures AggregateAnnouncement(h, ts, q, cs).Ok? <==>
      forall i :: 0 <= i < NB_DIGITS ==> HasSession(h, ts, q, cs, i)
  {
    PointsIff(h, ts, q, cs, NB_DIGITS);
    hide NoncePoints, HasSession;
  }

  lemma LoneFails(h: Hashes, n: u16, t: u16, localSeed: Seed, ts: Timestamp, price: nat, q: seq<u16>)
    requires IsPrime(N) && Keygen(h, n, t, localSeed).Ok? && |q| == 1
    ensures Attest(h, Keygen(h, n, t, localSeed).value, ts, price, q).Err?
  {
    hide *;
    var c := Keygen(h, n, t, localSeed).value;
    AttestIs(h, c, ts, price, q);
    if QuorumSigners(c, q).Ok? {
      var signers := QuorumSigners(c, q).value;
      var cs := Commitments(h, signers, ts);
      CohortReady(h, n, t, localSeed, q);
      ReadyAt(signers, q, n, t, c.groupPubkey, signers[0].key.pkOdd, 0);
      LoneSignerRefused(h, signers[0], ts, price, q, cs);
      PartialsIff(h, signers, ts, price, q, cs, |signers|);
      CompletesIs(h, ts, price, q, signers);
    }
  }

  /** Once it has announced, a quorum of a keyed cohort attests a price exactly when it has more
      than one member and every digit signs: no challenge is zero, and neither a partial
      signature nor a sum of them vanishes. */
  lemma CohortAttestsIff(h: Hashes, n: u16, t: u16, localSeed: Seed, ts: Timestamp, price: nat, q: seq<u16>)
    requires IsPrime(N) && Keygen(h, n, t, localSeed).Ok?
    requires Announce(h, Keygen(h, n, t, localSeed).value, ts, q).Ok?
    ensures var c := Keygen(h, n, t, localSeed).value;
      var signers := QuorumSigners(c, q).value;
      && |signers| == |q| > 0
      && (|q| == 1 ==> Attest(h, c, ts, price, q).Err?)
      && (|q| > 1 ==> Lambdable(q))
      && (|q| > 1 ==>
           (Attest(h, c, ts, price, q).Ok? <==>
             forall i :: 0 <= i < NB_DIGITS ==>
               DigitSigns(h, SittingOf(q, signers, c.groupPubkey, signers[0].key.pkOdd), ts, price, i)))
  {
    var c := Keygen(h, n, t, localSeed).value;
    assert QuorumSigners(c, q).Ok? by { hide Keygen; }
    hide *;
    var signers := QuorumSigners(c, q).value;
    var cs := Commitments(h, signers, ts);
    var poly, odd := CohortPoly(h, n, t, localSeed), signers[0].key.pkOdd;
    CohortReady(h, n, t, localSeed, q);
    if |q| == 1 {
      LoneFails(h, n, t, localSeed, ts, price, q);
    } else {
      KeygenKeys(h, n, t, localSeed);
      SeatedKey(c, q, 0);
      QuorumLambdable(q, c.n, c.t);
      SeatedDistinct(signers, q, c.n, c.t);
      CohortHonest(h, c, poly, ts, q);
      AnnounceIs(h, c, ts, q);
      AnnouncedSessions(h, ts, q, cs);
      AttestIs(h, c, ts, price, q);
      CompletesIff(h, ts, price, q, signers, n, t, poly, c.groupPubkey, odd);
    }
  }
}
