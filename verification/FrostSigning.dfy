/** Threshold signing: what the quorum's shares add up to.

    Per digit the shares sum to  R + e * sum(coeff * x)  up to the parity corrections,
    and the sum of the weighted key shares is the group secret because interpolation at
    zero recovers the constant term of the group polynomial. */
module FrostSigning {
  import opened Options
  import opened Modular
  import opened Secp
  import opened Schnorr
  import opened Lagrange
  import opened Event
  import opened Frost
  import opened FrostKeygen

  // ------------------------------------------------- the coefficients of a quorum

  function Nodes(q: seq<Index>): (r: seq<int>)
    ensures |r| == |q|
  {
    seq(|q|, i requires 0 <= i < |q| => q[i])
  }

  ghost predicate Distinctive(q: seq<Index>) {
    forall i, k :: 0 <= i < k < |q| ==> q[i] != q[k]
  }

  lemma IndexApart(a: Index, b: Index)
    requires Cong(N, a, b)
    ensures a == b
  {
    CongUnique(N, a, b);
  }

  lemma NodesDistinct(q: seq<Index>)
    requires Distinctive(q)
    ensures Distinct(N, Nodes(q)) && Apart(N, 0, Nodes(q))
  {
    hide Cong;
    forall i, k | 0 <= i < k < |q|
      ensures !Cong(N, Nodes(q)[i], Nodes(q)[k])
    {
      if Cong(N, q[i], q[k]) { IndexApart(q[i], q[k]); }
    }
    forall i | 0 <= i < |q|
      ensures !Cong(N, 0, Nodes(q)[i])
    {
      if Cong(N, 0, q[i]) { CongUnique(N, 0, q[i]); }
    }
  }

  lemma {:induction false} NumeratorAppend(j: int, nodes: seq<int>, m: int)
    ensures Numerator(j, nodes + [m]) == Numerator(j, nodes) * if m == j then 1 else m
    ensures Denominator(j, nodes + [m]) == Denominator(j, nodes) * if m == j then 1 else m - j
  {
    if |nodes| == 0 {
      assert nodes + [m] == [m];
      FractionStep(j, [m]);
      assert Numerator(j, []) == 1 == Denominator(j, []);
    } else {
      assert (nodes + [m])[1..] == nodes[1..] + [m];
      FractionStep(j, nodes);
      FractionStep(j, nodes + [m]);
      hide Numerator, Denominator;
      NumeratorAppend(j, nodes[1..], m);
      Associate(if nodes[0] == j then 1 else nodes[0], Numerator(j, nodes[1..]), if m == j then 1 else m);
      Associate(if nodes[0] == j then 1 else nodes[0] - j, Denominator(j, nodes[1..]), if m == j then 1 else m - j);
    }
  }

  lemma Associate(a: int, b: int, c: int)
    ensures a * (b * c) == a * b * c
  {
  }

  /** A product accumulator stands for an integer: `None` for the empty product. */
  ghost predicate Stands(acc: Option<SecretKey>, v: int) {
    (acc.None? ==> v == 1) && (acc.Some? ==> Cong(N, acc.value, v))
  }

  lemma MulIntoStands(acc: Option<SecretKey>, t: SecretKey, v: int, w: int)
    requires Stands(acc, v) && Cong(N, t, w)
    requires MulInto(acc, t).Some?
    ensures Stands(MulInto(acc, t), v * w)
  {
    if acc.None? {
      assert v * w == w;
    } else {
      MulTweakCong(acc.value, t);
      MulStep(MulInto(acc, t).value, acc.value, t, v, w);
    }
  }

  lemma MulStep(r: int, a: int, t: int, v: int, w: int)
    requires Cong(N, r, a * t) && Cong(N, a, v) && Cong(N, t, w)
    ensures Cong(N, r, v * w)
  {
    hide *;
    CongMul(N, a, v, t, w);
    CongTrans(N, r, a * t, v * w);
  }

  lemma MulIntoDefined(acc: Option<SecretKey>, t: SecretKey)
    requires IsPrime(N)
    ensures MulInto(acc, t).Some?
  {
    if acc.Some? { MulTweakFails(acc.value, t); }
  }

  lemma DifferenceIs(m: Index, j: Index)
    requires AddTweak(m, Negate(j)).Some?
    ensures Cong(N, AddTweak(m, Negate(j)).value, m as int - j)
  {
    var d := AddTweak(m, Negate(j)).value;
    hide Negate, AddTweak, Cong;
    CongRefl(N, m);
    CongAdd(N, m, m, Negate(j), 0 - j);
    CongTrans(N, d, m + Negate(j), m as int + (0 - j));
  }

  lemma DifferenceUndefined(m: Index, j: Index)
    requires AddTweak(m, Negate(j)).None?
    ensures m == j
  {
    hide Cong, AddTweak, Negate;
    CongRefl(N, m);
    CongAdd(N, m, m, Negate(j), 0 - j);
    CongSym(N, m + Negate(j), m as int + (0 - j));
    CongTrans(N, m as int + (0 - j), m + Negate(j), 0);
    DiffZero(N, m, j);
    IndexApart(m, j);
  }

  ghost predicate HasOther(q: seq<Index>, j: Index) {
    exists m :: m in q && m != j
  }

  lemma HasOtherAppend(q: seq<Index>, k: nat, j: Index)
    requires k < |q|
    ensures HasOther(q[..k + 1], j) <==> HasOther(q[..k], j) || q[k] != j
  {
    assert q[..k + 1] == q[..k] + [q[k]];
    if HasOther(q[..k], j) {
      var m :| m in q[..k] && m != j;
      assert m in q[..k + 1];
    }
    if q[k] != j { assert q[k] in q[..k + 1]; }
  }

  lemma LagrangeUnfold(j: Index, q: seq<Index>, k: nat)
    requires 0 < k <= |q|
    requires LagrangePrefix(j, q, k - 1).Ok?
    ensures var (num, den) := LagrangePrefix(j, q, k - 1).value;
      && (q[k - 1] == j ==> LagrangePrefix(j, q, k) == Ok((num, den)))
      && (q[k - 1] != j && MulInto(num, q[k - 1]).Some? && AddTweak(q[k - 1], Negate(j)).Some?
            && MulInto(den, AddTweak(q[k - 1], Negate(j)).value).Some? ==>
          LagrangePrefix(j, q, k) == Ok((MulInto(num, q[k - 1]), MulInto(den, AddTweak(q[k - 1], Negate(j)).value))))
  {
    hide MulTweak, AddTweak, Negate, Cong, MulInto;
  }

  /** The loop never fails, and keeps the two products. */
  lemma {:induction false} LagrangePrefixIs(j: Index, q: seq<Index>, k: nat)
    requires IsPrime(N) && k <= |q|
    ensures LagrangePrefix(j, q, k).Ok?
    ensures var (num, den) := LagrangePrefix(j, q, k).value;
      && num.Some? == den.Some? == HasOther(q[..k], j)
      && Stands(num, Numerator(j, Nodes(q[..k])))
      && Stands(den, Denominator(j, Nodes(q[..k])))
  {
    hide IsPrime, MulTweak, AddTweak, Negate, Cong, MulInto, Numerator, Denominator, Stands, LagrangePrefix, HasOther,
      Nodes;
    if k == 0 {
      LagrangeStart(j, q);
    } else {
      LagrangePrefixIs(j, q, k - 1);
      LagrangeUnfold(j, q, k);
      var (num, den) := LagrangePrefix(j, q, k - 1).value;
      var m, n, d := q[k - 1], Numerator(j, Nodes(q[..k - 1])), Denominator(j, Nodes(q[..k - 1]));
      NodesAppend(q, k - 1);
      NumeratorAppend(j, Nodes(q[..k - 1]), m);
      HasOtherAppend(q, k - 1, j);
      if m != j {
        MulIntoDefined(num, m);
        CongRefl(N, m);
        MulIntoStands(num, m, n, m);
        if AddTweak(m, Negate(j)).None? { DifferenceUndefined(m, j); }
        DifferenceIs(m, j);
        var diff := AddTweak(m, Negate(j)).value;
        MulIntoDefined(den, diff);
        MulIntoStands(den, diff, d, m as int - j);
      } else {
        assert n * 1 == n && d * 1 == d;
      }
    }
  }

  lemma NodesAppend(q: seq<Index>, k: nat)
    requires k < |q|
    ensures Nodes(q[..k + 1]) == Nodes(q[..k]) + [q[k] as int]
  {
    assert q[..k + 1] == q[..k] + [q[k]];
  }

  lemma LagrangeStart(j: Index, q: seq<Index>)
    ensures LagrangePrefix(j, q, 0) == Ok((None, None))
    ensures !HasOther(q[..0], j)
    ensures Stands(None, Numerator(j, Nodes(q[..0]))) && Stands(None, Denominator(j, Nodes(q[..0])))
  {
    assert Nodes(q[..0]) == [];
  }

  /** Over a quorum the coefficient exists exactly when some other member does, and then
      it is the Lagrange coefficient at zero; otherwise the error is "quorum too small". */
  lemma LambdaIs(j: Index, q: seq<Index>)
    requires IsPrime(N)
    ensures LambdaFor(j, q).Ok? <==> HasOther(q, j)
    ensures LambdaFor(j, q).Ok? ==> IsLambda(N, LambdaFor(j, q).value, j, Nodes(q))
    ensures LambdaFor(j, q).Err? ==> LambdaFor(j, q) == Err(QuorumTooSmall)
  {
    LagrangePrefixIs(j, q, |q|);
    assert q[..|q|] == q;
    var (num, den) := LagrangePrefix(j, q, |q|).value;
    hide IsPrime, LagrangePrefix, MulTweak, HasOther, Nodes, Numerator, Denominator, Cong, InverseOf, IsLambda;
    if num.Some? {
      var inv: SecretKey := InverseOf(N, den.value);
      InverseIs(N, den.value);
      MulTweakFails(num.value, inv);
      MulTweakCong(num.value, inv);
      LambdaMeans(N, MulTweak(num.value, inv).value, j, Nodes(q));
      LambdaStands(MulTweak(num.value, inv).value, num.value, inv, den.value, Numerator(j, Nodes(q)),
                   Denominator(j, Nodes(q)));
    }
  }

  lemma LambdaStands(l: int, num: int, inv: int, den: int, n: int, d: int)
    requires Cong(N, l, num * inv) && Cong(N, den * inv, 1) && Cong(N, num, n) && Cong(N, den, d)
    ensures Cong(N, l * d, n)
  {
    hide *;
    CongSym(N, den, d);
    CongMul(N, l, num * inv, d, den);
    assert num * inv * den == num * (den * inv);
    CongMul(N, num, n, den * inv, 1);
    CongTrans(N, l * d, num * inv * den, n * 1);
  }

  // --------------------------------------------------------------- the nonce sum

  /** One signer's nonce contribution in the exponent: `d + e * rho`. */
  function Contribution(h: Hashes, ts: Timestamp, digit: nat, q: seq<u16>, des: seq<DigitCommit>, k: nat): int
    requires |q| == |des| && k < |q|
  {
    des[k].0.log + Times(des[k].1.log, h.bindingFactor(q[k], ts, digit, q, des))
  }

  function NonceSum(h: Hashes, ts: Timestamp, digit: nat, q: seq<u16>, des: seq<DigitCommit>, k: nat): int
    requires |q| == |des| && k <= |q|
  {
    if k == 0 then 0 else NonceSum(h, ts, digit, q, des, k - 1) + Contribution(h, ts, digit, q, des, k - 1)
  }

  lemma NonceTermIs(h: Hashes, ts: Timestamp, digit: nat, q: seq<u16>, des: seq<DigitCommit>, k: nat)
    requires |q| == |des| && k < |q| && NonceTerm(h, ts, digit, q, des, k).Some?
    ensures Cong(N, NonceTerm(h, ts, digit, q, des, k).value.log, Contribution(h, ts, digit, q, des, k))
  {
    var rho := h.bindingFactor(q[k], ts, digit, q, des);
    var bound := TweakPoint(des[k].1, rho).value;
    var term := Combine(des[k].0, bound).value;
    hide Cong, TweakPoint, Combine;
    TimesIs(des[k].1.log, rho);
    CongRefl(N, des[k].0.log);
    CongAdd(N, des[k].0.log, des[k].0.log, bound.log, des[k].1.log * rho);
    CongTrans(N, term.log, des[k].0.log + bound.log, des[k].0.log + des[k].1.log * rho);
  }

  lemma {:induction false} NoncePrefixIs(h: Hashes, ts: Timestamp, digit: nat, q: seq<u16>, des: seq<DigitCommit>,
                                         k: nat)
    requires |q| == |des| && k <= |q| && NoncePrefix(h, ts, digit, q, des, k).Some?
    ensures var acc := NoncePrefix(h, ts, digit, q, des, k).value;
      && acc.Some? == (k > 0)
      && (acc.Some? ==> Cong(N, acc.value.log, NonceSum(h, ts, digit, q, des, k)))
  {
    hide NonceTerm, Cong, CombineInto, Contribution;
    if k > 0 {
      NoncePrefixIs(h, ts, digit, q, des, k - 1);
      var acc := NoncePrefix(h, ts, digit, q, des, k - 1).value;
      var term := NonceTerm(h, ts, digit, q, des, k - 1).value;
      NonceTermIs(h, ts, digit, q, des, k - 1);
      var before := NonceSum(h, ts, digit, q, des, k - 1);
      CombinedIs(acc, term, before);
      var r := CombineInto(acc, term).value;
      CongRefl(N, before);
      CongAdd(N, before, before, term.log, Contribution(h, ts, digit, q, des, k - 1));
      CongTrans(N, r.log, before + term.log, NonceSum(h, ts, digit, q, des, k));
    }
  }

  lemma SessionIs(h: Hashes, ts: Timestamp, digit: nat, q: seq<u16>, des: seq<DigitCommit>)
    requires |q| == |des| && NonceSession(h, ts, digit, q, des).Some?
    ensures Cong(N, NonceSession(h, ts, digit, q, des).value.0.log, NonceSum(h, ts, digit, q, des, |q|))
  {
    hide Cong, NonceSum, NoncePrefix;
    NoncePrefixIs(h, ts, digit, q, des, |q|);
  }

  // ------------------------------------------------------------ one signer's share

  function Sign(odd: bool): int {
    if odd then -1 else 1
  }

  lemma NegateIfIs(odd: bool, a: SecretKey, v: int)
    requires Cong(N, a, v)
    ensures Cong(N, NegateIf(odd, a), Sign(odd) * v)
  {
    var r := NegateIf(odd, a);
    assert Sign(odd) * v == if odd then 0 - v else v;
    assert !odd ==> r == a;
    if odd {
      hide *;
      CongNeg(N, a, v);
      assert Cong(N, Negate(a), 0 - a);
      CongTrans(N, Negate(a), 0 - a, 0 - v);
      assert Cong(N, r, 0 - v) by { NegateIfOdd(a); }
    }
  }

  lemma NegateIfOdd(a: SecretKey)
    ensures NegateIf(true, a) == Negate(a)
  {
  }

  /** What a partial signature is worth: the parity-corrected nonce plus the
      parity-corrected, weighted and challenged key share. */
  ghost function Worth(rOdd: bool, pkOdd: bool, e: int, nonce: int, weighted: int): int {
    (if rOdd then -nonce else nonce) + (if pkOdd then -Times(weighted, e) else Times(weighted, e))
  }

  /** `z` is worth what member `k` owes to digit `i`, whose outcome is `d`. */
  ghost predicate DigitShare(h: Hashes, ts: Timestamp, q: seq<u16>, cs: seq<NonceCommitment>, i: nat, d: Digit,
                             group: XOnlyKey, pkOdd: bool, k: nat, weighted: int, z: int)
    requires k < |q|
  {
    && QuorumCommitments(q, cs, i).Ok?
    && var des := QuorumCommitments(q, cs, i).value;
    && NonceSession(h, ts, i, q, des).Some?
    && var r := NonceSession(h, ts, i, q, des).value.0;
       var e := Challenge(h.env, XOf(r), group, h.digitMsg(d));
    && e != 0
    && Cong(N, z, Worth(IsOdd(h.env, r), pkOdd, e, Contribution(h, ts, i, q, des, k), weighted))
  }

  lemma ShareDigitIs(h: Hashes, s: Signer, ts: Timestamp, q: seq<u16>, cs: seq<NonceCommitment>,
                     pos: nat, coeff: SecretKey, x: SecretKey, i: nat, d: Digit)
    requires pos < |q| && ShareDigit(h, s, ts, q, cs, pos, coeff, x, i, d).Ok?
    requires FindCommitment(cs, q[pos]) == Some(CommitNonces(h, s, ts)) && i < NB_DIGITS
    ensures DigitShare(h, ts, q, cs, i, d, s.key.groupPubkey, s.key.pkOdd, pos, coeff * x,
                       ShareDigit(h, s, ts, q, cs, pos, coeff, x, i, d).value)
  {
    hide MulTweak, AddTweak, IsOdd, XOf, Challenge, Cong, NoncePrefix, QuorumCommitments, NegateIf, Worth,
      FindCommitment, CommitNonces;
    var des := QuorumCommitments(q, cs, i).value;
    var (r, rhos) := NonceSession(h, ts, i, q, des).value;
    var e := Challenge(h.env, XOf(r), s.key.groupPubkey, h.digitMsg(d));
    var dn, en, rho := h.hidingNonce(s.nonceSeed, ts, i), h.bindingNonce(s.nonceSeed, ts, i), rhos[pos];
    var bound := MulTweak(en, rho).value;
    var eff := AddTweak(dn, bound).value;
    var lx := MulTweak(coeff, x).value;
    var part := MulTweak(lx, e).value;
    MulTweakNonzero(lx, e);
    QuorumCommitmentsAt(q, cs, i, pos);
    CommittedPair(h, s, ts, i);
    MulTweakCong(en, rho);
    MulTweakCong(coeff, x);
    MulTweakCong(lx, e);
    TimesIs(en, rho);
    ShareWorth(IsOdd(h.env, r), s.key.pkOdd, dn, en, rho, bound, eff, coeff, x, lx, e, part,
               AddTweak(NegateIf(IsOdd(h.env, r), eff), NegateIf(s.key.pkOdd, part)).value);
  }

  lemma ShareWorth(rOdd: bool, pkOdd: bool, dn: int, en: int, rho: int, bound: int, eff: SecretKey,
                   coeff: int, x: int, lx: int, e: int, part: SecretKey, z: int)
    requires Cong(N, bound, en * rho) && Cong(N, eff, dn + bound)
    requires Cong(N, lx, coeff * x) && Cong(N, part, lx * e)
    requires Cong(N, z, NegateIf(rOdd, eff) + NegateIf(pkOdd, part))
    ensures Cong(N, z, Worth(rOdd, pkOdd, e, dn + en * rho, coeff * x))
  {
    WorthIs(rOdd, pkOdd, e, dn + en * rho, coeff * x);
    hide *;
    CongRefl(N, dn);
    CongAdd(N, dn, dn, bound, en * rho);
    CongTrans(N, eff, dn + bound, dn + en * rho);
    NegateIfIs(rOdd, eff, dn + en * rho);
    CongRefl(N, e);
    CongMul(N, lx, coeff * x, e, e);
    CongTrans(N, part, lx * e, coeff * x * e);
    NegateIfIs(pkOdd, part, coeff * x * e);
    CongAdd(N, NegateIf(rOdd, eff), Sign(rOdd) * (dn + en * rho), NegateIf(pkOdd, part), Sign(pkOdd) * (coeff * x * e));
    CongTrans(N, z, NegateIf(rOdd, eff) + NegateIf(pkOdd, part), Worth(rOdd, pkOdd, e, dn + en * rho, coeff * x));
  }

  lemma WorthIs(rOdd: bool, pkOdd: bool, e: int, nonce: int, weighted: int)
    ensures Worth(rOdd, pkOdd, e, nonce, weighted) == Sign(rOdd) * nonce + Sign(pkOdd) * (weighted * e)
  {
    TimesIs(weighted, e);
  }

  // ----------------------------------------------------------- the honest messages

  /** The signers of a quorum, in quorum order. */
  ghost predicate Seats(signers: seq<Signer>, q: seq<u16>) {
    |signers| == |q| && forall k :: 0 <= k < |q| ==> signers[k].key.index == q[k]
  }

  /** The commitment list holds every signer's own nonce commitment. */
  ghost predicate HonestCommitments(h: Hashes, ts: Timestamp, q: seq<u16>, signers: seq<Signer>,
                                    cs: seq<NonceCommitment>) {
    Seats(signers, q) && forall k :: 0 <= k < |q| ==> FindCommitment(cs, q[k]) == Some(CommitNonces(h, signers[k], ts))
  }

  /** The share list holds every signer's own partial signature. */
  ghost predicate HonestShares(h: Hashes, ts: Timestamp, price: nat, q: seq<u16>, signers: seq<Signer>,
                               cs: seq<NonceCommitment>, shares: seq<SigShare>)
    requires IsPrime(N)
  {
    Seats(signers, q) && forall k :: 0 <= k < |q| ==>
      && ShareOf(h, signers[k], ts, price, q, cs).Ok?
      && FindSigShare(shares, q[k]) == Some(ShareOf(h, signers[k], ts, price, q, cs).value)
  }

  /** The signers hold points of one polynomial, and the group key of its constant term. */
  ghost predicate KeysOn(h: Hashes, signers: seq<Signer>, poly: seq<int>, group: XOnlyKey, odd: bool) {
    && GroupKey(h, group, odd, poly)
    && forall k :: 0 <= k < |signers| ==> KeyOn(signers[k].key, poly, group, odd)
  }

  ghost predicate KeyOn(key: KeyShare, poly: seq<int>, group: XOnlyKey, odd: bool) {
    && key.groupPubkey == group && key.pkOdd == odd
    && Cong(N, key.x, PolyVal(poly, key.index))
  }

  lemma {:induction false} QuorumCommitmentsAt(q: seq<u16>, cs: seq<NonceCommitment>, digit: nat, k: nat)
    requires QuorumCommitments(q, cs, digit).Ok? && k < |q|
    ensures FindCommitment(cs, q[k]).Some? && digit < |FindCommitment(cs, q[k]).value.digits|
    ensures QuorumCommitments(q, cs, digit).value[k] == FindCommitment(cs, q[k]).value.digits[digit]
  {
    if k > 0 { QuorumCommitmentsAt(q[1..], cs, digit, k - 1); }
  }

  lemma PositionIs(q: seq<Index>, k: nat)
    requires Distinctive(q) && k < |q|
    ensures Position(q, q[k]) == Some(k)
  {
  }

  lemma CheckedIsQuorum(q: seq<u16>, n: u16, t: u16)
    requires CheckQuorum(q, n, t).Ok?
    ensures |q| >= t
    ensures forall k :: 0 <= k < |q| ==> 0 < q[k] <= n
    ensures Distinctive(q)
  {
    forall i, k | 0 <= i < k < |q|
      ensures q[i] != q[k]
    {
      assert q[k] !in q[..k];
      assert q[i] == q[..k][i];
    }
  }

  lemma {:induction false} SharePrefixAt(h: Hashes, s: Signer, ts: Timestamp, q: seq<u16>, cs: seq<NonceCommitment>,
                                         pos: nat, coeff: SecretKey, x: SecretKey, ds: seq<Digit>, k: nat, i: nat)
    requires pos < |q| && i < k <= |ds|
    requires SharePrefix(h, s, ts, q, cs, pos, coeff, x, ds, k).Ok?
    ensures ShareDigit(h, s, ts, q, cs, pos, coeff, x, i, ds[i]).Ok?
    ensures SharePrefix(h, s, ts, q, cs, pos, coeff, x, ds, k).value[i] ==
      ShareDigit(h, s, ts, q, cs, pos, coeff, x, i, ds[i]).value
  {
    hide ShareDigit;
    if i < k - 1 { SharePrefixAt(h, s, ts, q, cs, pos, coeff, x, ds, k - 1, i); }
  }

  /** The weights and key shares of a quorum. */
  ghost function Lambdas(q: seq<Index>): (r: seq<int>)
    requires IsPrime(N) && forall k :: 0 <= k < |q| ==> LambdaFor(q[k], q).Ok?
    ensures |r| == |q|
  {
    seq(|q|, k requires 0 <= k < |q| => LambdaFor(q[k], q).value)
  }

  function KeyShares(signers: seq<Signer>): (r: seq<int>)
    ensures |r| == |signers|
  {
    seq(|signers|, k requires 0 <= k < |signers| => signers[k].key.x)
  }

  /** One digit of one honest signer. */
  lemma HonestShareIs(h: Hashes, ts: Timestamp, price: nat, q: seq<u16>, signers: seq<Signer>,
                      cs: seq<NonceCommitment>, k: nat, i: nat)
    requires IsPrime(N) && HonestCommitments(h, ts, q, signers, cs)
    requires k < |q| && i < NB_DIGITS
    requires ShareOf(h, signers[k], ts, price, q, cs).Ok?
    ensures forall m :: 0 <= m < |q| ==> 0 < q[m]
    ensures Distinctive(q) && LambdaFor(q[k], q).Ok?
    ensures |ShareOf(h, signers[k], ts, price, q, cs).value.digits| == NB_DIGITS
    ensures DigitShare(h, ts, q, cs, i, Digits(price)[i], signers[k].key.groupPubkey, signers[k].key.pkOdd, k,
                       LambdaFor(q[k], q).value * signers[k].key.x,
                         ShareOf(h, signers[k], ts, price, q, cs).value.digits[i])
  {
    var s := signers[k];
    SeatsAt(h, ts, q, signers, cs, k);
    ShareOfUnfold(h, s, ts, price, q, cs, k);
    hide *;
    var coeff := LambdaFor(q[k], q).value;
    SharePrefixAt(h, s, ts, q, cs, k, coeff, s.key.x, Digits(price), NB_DIGITS, i);
    ShareDigitIs(h, s, ts, q, cs, k, coeff, s.key.x, i, Digits(price)[i]);
  }

  lemma CommittedPair(h: Hashes, s: Signer, ts: Timestamp, i: nat)
    requires i < NB_DIGITS
    ensures |CommitNonces(h, s, ts).digits| == NB_DIGITS
    ensures CommitNonces(h, s, ts).digits[i] ==
      (PublicOf(h.hidingNonce(s.nonceSeed, ts, i)), PublicOf(h.bindingNonce(s.nonceSeed, ts, i)))
  {
  }

  lemma SeatsAt(h: Hashes, ts: Timestamp, q: seq<u16>, signers: seq<Signer>, cs: seq<NonceCommitment>, k: nat)
    requires HonestCommitments(h, ts, q, signers, cs) && k < |q|
    ensures |signers| == |q| && signers[k].key.index == q[k]
    ensures FindCommitment(cs, q[k]) == Some(CommitNonces(h, signers[k], ts))
  {
  }

  lemma ShareOfUnfold(h: Hashes, s: Signer, ts: Timestamp, price: nat, q: seq<u16>, cs: seq<NonceCommitment>, k: nat)
    requires IsPrime(N) && k < |q| && s.key.index == q[k]
    requires ShareOf(h, s, ts, price, q, cs).Ok?
    ensures forall m :: 0 <= m < |q| ==> 0 < q[m]
    ensures Distinctive(q) && LambdaFor(q[k], q).Ok? && 0 < s.key.x < N
    ensures SharePrefix(h, s, ts, q, cs, k, LambdaFor(q[k], q).value, s.key.x, Digits(price), NB_DIGITS).Ok?
    ensures ShareOf(h, s, ts, price, q, cs).value.digits ==
      SharePrefix(h, s, ts, q, cs, k, LambdaFor(q[k], q).value, s.key.x, Digits(price), NB_DIGITS).value
  {
    assert CheckQuorum(q, s.key.n, s.key.t).Ok?;
    CheckedIsQuorum(q, s.key.n, s.key.t);
    var qi: seq<Index> := q;
    PositionIs(qi, k);
    hide IsPrime, LambdaFor, SharePrefix, Digits, CheckQuorum, Distinctive, Position;
  }

  // ----------------------------------------------------------- adding up the shares

  /** `sum coeff * x` over the first `k` members. */
  lemma {:induction false} CombinationAppend(ls: seq<int>, xs: seq<int>, l: int, x: int)
    requires |ls| == |xs|
    ensures Combination(ls + [l], xs + [x]) == Combination(ls, xs) + l * x
  {
    if |ls| == 0 {
      assert ls + [l] == [l] && xs + [x] == [x];
      CombinationStep([l], [x]);
      assert Combination([], []) == 0 == Combination(ls, xs);
    } else {
      CombinationStep(ls, xs);
      CombinationStep(ls + [l], xs + [x]);
      assert (ls + [l])[1..] == ls[1..] + [l] && (xs + [x])[1..] == xs[1..] + [x];
      CombinationAppend(ls[1..], xs[1..], l, x);
    }
  }

  lemma CombinationSnoc(ls: seq<int>, xs: seq<int>, k: nat)
    requires |ls| == |xs| && k < |ls|
    ensures Combination(ls[..k + 1], xs[..k + 1]) == Combination(ls[..k], xs[..k]) + ls[k] * xs[k]
  {
    assert ls[..k + 1] == ls[..k] + [ls[k]] && xs[..k + 1] == xs[..k] + [xs[k]];
    CombinationAppend(ls[..k], xs[..k], ls[k], xs[k]);
  }

  ghost predicate WorthyAtSeat(h: Hashes, ts: Timestamp, q: seq<u16>, des: seq<DigitCommit>, shares: seq<SigShare>,
                               rOdd: bool, pkOdd: bool, e: int, i: nat, ls: seq<int>, xs: seq<int>, k: nat)
    requires |des| == |q| == |ls| == |xs| && k < |q|
  {
    && FindSigShare(shares, q[k]).Some? && i < |FindSigShare(shares, q[k]).value.digits|
    && Cong(N, FindSigShare(shares, q[k]).value.digits[i],
            Worth(rOdd, pkOdd, e, Contribution(h, ts, i, q, des, k), ls[k] * xs[k]))
  }

  /** Every partial signature in the list is worth what an honest one is. */
  ghost predicate Worthy(h: Hashes, ts: Timestamp, q: seq<u16>, des: seq<DigitCommit>, shares: seq<SigShare>,
                         rOdd: bool, pkOdd: bool, e: int, i: nat, ls: seq<int>, xs: seq<int>)
  {
    && |des| == |q| == |ls| == |xs|
    && forall k :: 0 <= k < |q| ==> WorthyAtSeat(h, ts, q, des, shares, rOdd, pkOdd, e, i, ls, xs, k)
  }

  lemma WorthyAt(h: Hashes, ts: Timestamp, q: seq<u16>, des: seq<DigitCommit>, shares: seq<SigShare>,
                 rOdd: bool, pkOdd: bool, e: int, i: nat, ls: seq<int>, xs: seq<int>, k: nat)
    requires Worthy(h, ts, q, des, shares, rOdd, pkOdd, e, i, ls, xs) && k < |q|
    ensures |des| == |q| == |ls| == |xs|
    ensures FindSigShare(shares, q[k]).Some? && i < |FindSigShare(shares, q[k]).value.digits|
    ensures Cong(N, FindSigShare(shares, q[k]).value.digits[i],
                 Worth(rOdd, pkOdd, e, Contribution(h, ts, i, q, des, k), ls[k] * xs[k]))
  {
    hide Cong, Worth;
    assert WorthyAtSeat(h, ts, q, des, shares, rOdd, pkOdd, e, i, ls, xs, k);
  }

  lemma WorthZero(rOdd: bool, pkOdd: bool, e: int)
    ensures Worth(rOdd, pkOdd, e, 0, 0) == 0
  {
    TimesIs(0, e);
  }

  lemma WorthAdds(rOdd: bool, pkOdd: bool, e: int, a: int, b: int, c: int, d: int)
    ensures Worth(rOdd, pkOdd, e, a, b) + Worth(rOdd, pkOdd, e, c, d) == Worth(rOdd, pkOdd, e, a + c, b + d)
  {
    TimesIs(b, e);
    TimesIs(d, e);
    TimesIs(b + d, e);
    assert (b + d) * e == b * e + d * e;
  }

  lemma SumSharesUnfold(q: seq<u16>, shares: seq<SigShare>, i: nat, k: nat)
    requires 0 < k <= |q| && SumShares(q, shares, i, k).Ok?
    requires FindSigShare(shares, q[k - 1]).Some? && i < |FindSigShare(shares, q[k - 1]).value.digits|
    ensures SumShares(q, shares, i, k - 1).Ok?
    ensures var z := FindSigShare(shares, q[k - 1]).value.digits[i];
      && 0 < z < N
      && AddInto(SumShares(q, shares, i, k - 1).value, z).Some?
      && SumShares(q, shares, i, k) == Ok(AddInto(SumShares(q, shares, i, k - 1).value, z))
  {
    hide AddInto, FindSigShare;
  }

  /** The running sum of partial signatures. */
  ghost predicate SumIs(acc: Option<SecretKey>, k: nat, v: int) {
    acc.Some? == (k > 0) && (acc.None? ==> v == 0) && (acc.Some? ==> Cong(N, acc.value, v))
  }

  lemma SumIsStep(acc: Option<SecretKey>, k: nat, v: int, z: SecretKey, w: int)
    requires SumIs(acc, k, v) && Cong(N, z, w) && AddInto(acc, z).Some?
    ensures SumIs(AddInto(acc, z), k + 1, v + w)
  {
    hide Cong, AddInto;
    AddedIs(acc, z, v);
    Accumulate(AddInto(acc, z).value, v, z, w);
  }

  lemma SumSharesStart(q: seq<u16>, shares: seq<SigShare>, i: nat, rOdd: bool, pkOdd: bool, e: int, ls: seq<int>,
                       xs: seq<int>)
    requires |ls| == |xs|
    ensures SumShares(q, shares, i, 0).Ok?
    ensures SumIs(SumShares(q, shares, i, 0).value, 0, Worth(rOdd, pkOdd, e, 0, Combination(ls[..0], xs[..0])))
  {
    CombinationEmpty(ls, xs);
    WorthZero(rOdd, pkOdd, e);
  }

  lemma NonceSumStep(h: Hashes, ts: Timestamp, digit: nat, q: seq<u16>, des: seq<DigitCommit>, k: nat)
    requires |q| == |des| && k < |q|
    ensures NonceSum(h, ts, digit, q, des, k + 1) ==
      NonceSum(h, ts, digit, q, des, k) + Contribution(h, ts, digit, q, des, k)
  {
  }

  lemma {:induction false} SumSharesIs(h: Hashes, ts: Timestamp, q: seq<u16>, des: seq<DigitCommit>,
                                       shares: seq<SigShare>,
                                       rOdd: bool, pkOdd: bool, e: int, i: nat, ls: seq<int>, xs: seq<int>, k: nat)
    requires |des| == |q| == |ls| == |xs|
    requires Worthy(h, ts, q, des, shares, rOdd, pkOdd, e, i, ls, xs)
    requires k <= |q| && SumShares(q, shares, i, k).Ok?
    ensures SumIs(SumShares(q, shares, i, k).value, k,
                  Worth(rOdd, pkOdd, e, NonceSum(h, ts, i, q, des, k), Combination(ls[..k], xs[..k])))
    decreases k
  {
    hide *;
    if k == 0 {
      NonceSumEmpty(h, ts, i, q, des);
      SumSharesStart(q, shares, i, rOdd, pkOdd, e, ls, xs);
    } else {
      WorthyAt(h, ts, q, des, shares, rOdd, pkOdd, e, i, ls, xs, k - 1);
      SumSharesUnfold(q, shares, i, k);
      SumSharesIs(h, ts, q, des, shares, rOdd, pkOdd, e, i, ls, xs, k - 1);
      var acc := SumShares(q, shares, i, k - 1).value;
      var z: SecretKey := FindSigShare(shares, q[k - 1]).value.digits[i];
      var a, b := NonceSum(h, ts, i, q, des, k - 1), Combination(ls[..k - 1], xs[..k - 1]);
      var c, d := Contribution(h, ts, i, q, des, k - 1), ls[k - 1] * xs[k - 1];
      WorthAdds(rOdd, pkOdd, e, a, b, c, d);
      CombinationSnoc(ls, xs, k - 1);
      NonceSumStep(h, ts, i, q, des, k - 1);
      SumIsStep(acc, k - 1, Worth(rOdd, pkOdd, e, a, b), z, Worth(rOdd, pkOdd, e, c, d));
    }
  }

  lemma NonceSumEmpty(h: Hashes, ts: Timestamp, digit: nat, q: seq<u16>, des: seq<DigitCommit>)
    requires |q| == |des|
    ensures NonceSum(h, ts, digit, q, des, 0) == 0
  {
  }

  lemma CombinationEmpty(ls: seq<int>, xs: seq<int>)
    requires |ls| == |xs|
    ensures Combination(ls[..0], xs[..0]) == 0
  {
  }

  // ------------------------------------------------------------- the whole signature

  lemma ParityLift(env: Env, p: PublicKey, v: int)
    requires Cong(N, p.log, v)
    ensures Cong(N, LiftEven(env, XOf(p)).log, Sign(IsOdd(env, p)) * v)
  {
    LiftOfX(env, p);
    hide LiftEven, XOf, IsOdd, Cong;
    NegateIfIs(IsOdd(env, p), p.log, v);
  }

  /** The equation behind every aggregated digit. */
  lemma SumVerifiesIff(env: Env, r: PublicKey, group: XOnlyKey, pkOdd: bool, secret: SecretKey, e: int, nonces: int,
                       weighted: int, s: int)
    requires IsPrime(N)
    requires group == XOf(PublicOf(secret)) && pkOdd == IsOdd(env, PublicOf(secret))
    requires Cong(N, r.log, nonces) && 0 < e < N
    requires Cong(N, s, Worth(IsOdd(env, r), pkOdd, e, nonces, weighted))
    ensures Cong(N, s, LiftEven(env, XOf(r)).log + e * LiftEven(env, group).log) <==> Cong(N, weighted, secret)
  {
    ParityLift(env, r, nonces);
    CongRefl(N, secret);
    ParityLift(env, PublicOf(secret), secret);
    WorthIs(IsOdd(env, r), pkOdd, e, nonces, weighted);
    UnitNotZero(N, e);
    hide *;
    SignedCancel(Sign(IsOdd(env, r)) * nonces, Sign(pkOdd), e, weighted, secret, s, LiftEven(env, XOf(r)).log,
                 LiftEven(env, group).log) by {
      SignIsUnit(pkOdd);
    }
  }

  lemma SignIsUnit(odd: bool)
    ensures Sign(odd) * Sign(odd) == 1
  {
  }

  lemma SignedCancel(a: int, sign: int, e: int, weighted: int, secret: int, s: int, r: int, p: int)
    requires IsPrime(N) && sign * sign == 1 && !Cong(N, e, 0)
    requires Cong(N, r, a) && Cong(N, p, sign * secret)
    requires Cong(N, s, a + sign * (weighted * e))
    ensures Cong(N, s, r + e * p) <==> Cong(N, weighted, secret)
  {
    hide *;
    CongRefl(N, e);
    CongMul(N, e, e, p, sign * secret);
    CongAdd(N, r, a, e * p, e * (sign * secret));
    if Cong(N, weighted, secret) {
      CongMul(N, weighted, secret, e, e);
      CongRefl(N, sign);
      CongMul(N, sign, sign, weighted * e, secret * e);
      CongRefl(N, a);
      CongAdd(N, a, a, sign * (weighted * e), sign * (secret * e));
      CongTrans(N, s, a + sign * (weighted * e), a + sign * (secret * e));
      SignRotate(sign, secret, e);
      CongSym(N, r + e * p, a + e * (sign * secret));
      CongTrans(N, s, a + sign * (secret * e), r + e * p);
    }
    if Cong(N, s, r + e * p) {
      CongTrans(N, s, r + e * p, a + e * (sign * secret));
      CongSym(N, s, a + sign * (weighted * e));
      CongTrans(N, a + sign * (weighted * e), s, a + e * (sign * secret));
      CongRefl(N, a);
      CongSub(N, a + sign * (weighted * e), a + e * (sign * secret), a, a);
      CongRefl(N, sign);
      CongMul(N, sign, sign, sign * (weighted * e), e * (sign * secret));
      SignClears(sign, weighted, secret, e);
      Cancel(N, weighted, secret, e);
    }
  }

  lemma SignRotate(sign: int, secret: int, e: int)
    ensures sign * (secret * e) == e * (sign * secret)
  {
    assert sign * (secret * e) == sign * secret * e;
  }

  lemma SignClears(sign: int, weighted: int, secret: int, e: int)
    requires sign * sign == 1
    ensures sign * (sign * (weighted * e)) == weighted * e
    ensures sign * (e * (sign * secret)) == secret * e
  {
    assert sign * (sign * (weighted * e)) == (sign * sign) * (weighted * e);
    SignRotate(sign, secret, e);
    assert sign * (sign * (secret * e)) == (sign * sign) * (secret * e);
  }

  // --------------------------------------------------------------- from the messages

  ghost predicate Lambdable(q: seq<u16>)
    requires IsPrime(N)
  {
    && (forall m :: 0 <= m < |q| ==> 0 < q[m])
    && Distinctive(q)
    && forall k :: 0 <= k < |q| ==> LambdaFor(q[k], q).Ok?
  }

  lemma HonestQuorum(h: Hashes, ts: Timestamp, price: nat, q: seq<u16>, signers: seq<Signer>, cs: seq<NonceCommitment>,
                     shares: seq<SigShare>)
    requires IsPrime(N) && |q| > 0
    requires HonestCommitments(h, ts, q, signers, cs) && HonestShares(h, ts, price, q, signers, cs, shares)
    ensures Lambdable(q)
  {
    forall k | 0 <= k < |q|
      ensures (forall m :: 0 <= m < |q| ==> 0 < q[m]) && Distinctive(q) && LambdaFor(q[k], q).Ok?
    {
      HonestSharesAt(h, ts, price, q, signers, cs, shares, k);
      hide *;
      HonestShareIs(h, ts, price, q, signers, cs, k, 0) by { NBIsPositive(); }
    }
    hide IsPrime, LambdaFor, Distinctive, HonestShares, HonestCommitments;
    assert q[0] > 0;
  }

  lemma NBIsPositive()
    ensures 0 < NB_DIGITS
  {
  }

  lemma HonestSharesAt(h: Hashes, ts: Timestamp, price: nat, q: seq<u16>, signers: seq<Signer>,
                       cs: seq<NonceCommitment>, shares: seq<SigShare>, k: nat)
    requires IsPrime(N) && HonestShares(h, ts, price, q, signers, cs, shares) && k < |q|
    ensures |signers| == |q| && signers[k].key.index == q[k]
    ensures ShareOf(h, signers[k], ts, price, q, cs).Ok?
    ensures FindSigShare(shares, q[k]) == Some(ShareOf(h, signers[k], ts, price, q, cs).value)
  {
    hide IsPrime, ShareOf, FindSigShare;
  }

  lemma LambdableAt(q: seq<u16>, k: nat)
    requires IsPrime(N) && Lambdable(q) && k < |q|
    ensures forall m :: 0 <= m < |q| ==> 0 < q[m]
    ensures forall m :: 0 <= m < |q| ==> LambdaFor(q[m], q).Ok?
    ensures Lambdas(q)[k] == LambdaFor(q[k], q).value
  {
    hide IsPrime, LambdaFor, Distinctive;
  }

  lemma KeysOnAt(h: Hashes, signers: seq<Signer>, poly: seq<int>, group: XOnlyKey, odd: bool, k: nat)
    requires KeysOn(h, signers, poly, group, odd) && k < |signers|
    ensures KeyOn(signers[k].key, poly, group, odd)
    ensures signers[k].key.groupPubkey == group && signers[k].key.pkOdd == odd
    ensures KeyShares(signers)[k] == signers[k].key.x
  {
    hide Cong, GroupKey;
  }

  lemma KeysOnGroup(h: Hashes, signers: seq<Signer>, poly: seq<int>, group: XOnlyKey, odd: bool)
    requires KeysOn(h, signers, poly, group, odd)
    ensures GroupKey(h, group, odd, poly)
  {
  }

  lemma ShareIsWorthy(h: Hashes, ts: Timestamp, price: nat, q: seq<u16>, signers: seq<Signer>, cs: seq<NonceCommitment>,
                      shares: seq<SigShare>, poly: seq<int>, group: XOnlyKey, odd: bool, i: nat, k: nat)
    requires IsPrime(N) && Lambdable(q) && i < NB_DIGITS && k < |q|
    requires (forall m :: 0 <= m < |q| ==> 0 < q[m]) && forall m :: 0 <= m < |q| ==> LambdaFor(q[m], q).Ok?
    requires HonestCommitments(h, ts, q, signers, cs) && HonestShares(h, ts, price, q, signers, cs, shares)
    requires KeysOn(h, signers, poly, group, odd)
    ensures |signers| == |q|
    ensures QuorumCommitments(q, cs, i).Ok?
    ensures var des := QuorumCommitments(q, cs, i).value;
      && NonceSession(h, ts, i, q, des).Some?
      && var r := NonceSession(h, ts, i, q, des).value.0;
         var e := Challenge(h.env, XOf(r), group, h.digitMsg(Digits(price)[i]));
      && e != 0
      && WorthyAtSeat(h, ts, q, des, shares, IsOdd(h.env, r), odd, e, i, Lambdas(q), KeyShares(signers), k)
  {
    HonestSharesAt(h, ts, price, q, signers, cs, shares, k);
    LambdableAt(q, k);
    hide IsPrime, Lambdable, LambdaFor, HonestCommitments, HonestShares, KeysOn, ShareOf, Digits, XOf, IsOdd,
      Challenge, Cong, Worth, NonceSession, QuorumCommitments, Contribution, Lambdas, KeyShares, FindSigShare;
    HonestShareIs(h, ts, price, q, signers, cs, k, i);
    KeysOnAt(h, signers, poly, group, odd, k);
  }

  /** All seats at once. */
  lemma AllWorthy(h: Hashes, ts: Timestamp, price: nat, q: seq<u16>, signers: seq<Signer>, cs: seq<NonceCommitment>,
                  shares: seq<SigShare>, poly: seq<int>, group: XOnlyKey, odd: bool, i: nat, des: seq<DigitCommit>,
                    r: PublicKey, e: int)
    requires IsPrime(N) && Lambdable(q) && i < NB_DIGITS && |q| > 0
    requires (forall m :: 0 <= m < |q| ==> 0 < q[m]) && forall m :: 0 <= m < |q| ==> LambdaFor(q[m], q).Ok?
    requires HonestCommitments(h, ts, q, signers, cs) && HonestShares(h, ts, price, q, signers, cs, shares)
    requires KeysOn(h, signers, poly, group, odd)
    requires QuorumCommitments(q, cs, i) == Ok(des) && |des| == |q|
    requires NonceSession(h, ts, i, q, des).Some? && NonceSession(h, ts, i, q, des).value.0 == r
    requires e == Challenge(h.env, XOf(r), group, h.digitMsg(Digits(price)[i]))
    ensures |signers| == |q| && e != 0
    ensures Worthy(h, ts, q, des, shares, IsOdd(h.env, r), odd, e, i, Lambdas(q), KeyShares(signers))
  {
    hide *;
    ShareIsWorthy(h, ts, price, q, signers, cs, shares, poly, group, odd, i, 0);
    forall k | 0 <= k < |q|
      ensures WorthyAtSeat(h, ts, q, des, shares, IsOdd(h.env, r), odd, e, i, Lambdas(q), KeyShares(signers), k)
    {
      ShareIsWorthy(h, ts, price, q, signers, cs, shares, poly, group, odd, i, k);
    }
    WorthyIntro(h, ts, q, des, shares, IsOdd(h.env, r), odd, e, i, Lambdas(q), KeyShares(signers));
  }

  lemma WholeSum(h: Hashes, ts: Timestamp, q: seq<u16>, des: seq<DigitCommit>, shares: seq<SigShare>,
                 rOdd: bool, pkOdd: bool, e: int, i: nat, ls: seq<int>, xs: seq<int>)
    requires |des| == |q| == |ls| == |xs| && |q| > 0
    requires Worthy(h, ts, q, des, shares, rOdd, pkOdd, e, i, ls, xs)
    requires SumShares(q, shares, i, |q|).Ok? && SumShares(q, shares, i, |q|).value.Some?
    ensures Cong(N, SumShares(q, shares, i, |q|).value.value,
                 Worth(rOdd, pkOdd, e, NonceSum(h, ts, i, q, des, |q|), Combination(ls, xs)))
  {
    hide *;
    SumSharesIs(h, ts, q, des, shares, rOdd, pkOdd, e, i, ls, xs, |q|);
    assert ls[..|q|] == ls && xs[..|q|] == xs;
    SumIsSome(SumShares(q, shares, i, |q|).value, |q|,
              Worth(rOdd, pkOdd, e, NonceSum(h, ts, i, q, des, |q|), Combination(ls, xs)));
  }

  /** What an aggregated digit is worth. */
  lemma AggregateWorth(h: Hashes, ts: Timestamp, price: nat, q: seq<u16>, signers: seq<Signer>,
                       cs: seq<NonceCommitment>,
                       shares: seq<SigShare>, poly: seq<int>, group: XOnlyKey, odd: bool, i: nat)
    returns (r: PublicKey, e: Scalar, nonces: int, s: SecretKey)
    requires IsPrime(N) && Lambdable(q) && i < NB_DIGITS && |q| > 0
    requires (forall m :: 0 <= m < |q| ==> 0 < q[m]) && forall m :: 0 <= m < |q| ==> LambdaFor(q[m], q).Ok?
    requires HonestCommitments(h, ts, q, signers, cs) && HonestShares(h, ts, price, q, signers, cs, shares)
    requires KeysOn(h, signers, poly, group, odd)
    requires AggregateDigit(h, ts, q, cs, shares, i).Ok?
    ensures |signers| == |q|
    ensures AggregateDigit(h, ts, q, cs, shares, i).value == Signature(OnCurve(XOf(r)), s)
    ensures Cong(N, r.log, nonces) && e != 0
    ensures e == Challenge(h.env, XOf(r), group, h.digitMsg(Digits(price)[i]))
    ensures Cong(N, s, Worth(IsOdd(h.env, r), odd, e, nonces, Combination(Lambdas(q), KeyShares(signers))))
  {
    AggregateDigitParts(h, ts, q, cs, shares, i);
    hide *;
    var des := QuorumCommitments(q, cs, i).value;
    r := NonceSession(h, ts, i, q, des).value.0;
    e := Challenge(h.env, XOf(r), group, h.digitMsg(Digits(price)[i]));
    nonces := NonceSum(h, ts, i, q, des, |q|);
    s := SumShares(q, shares, i, |q|).value.value;
    AllWorthy(h, ts, price, q, signers, cs, shares, poly, group, odd, i, des, r, e);
    WholeSum(h, ts, q, des, shares, IsOdd(h.env, r), odd, e, i, Lambdas(q), KeyShares(signers));
    SessionIs(h, ts, i, q, des);
  }

  /** An aggregated digit is a valid signature under the group key exactly when the
      weighted key shares add up to the group secret, for every parity of the nonce
      point and of the key. */
  lemma DigitVerifiesIff(h: Hashes, ts: Timestamp, price: nat, q: seq<u16>, signers: seq<Signer>,
                         cs: seq<NonceCommitment>,
                         shares: seq<SigShare>, poly: seq<int>, group: XOnlyKey, odd: bool, i: nat)
    requires IsPrime(N) && |q| > 0 && i < NB_DIGITS
    requires HonestCommitments(h, ts, q, signers, cs) && HonestShares(h, ts, price, q, signers, cs, shares)
    requires KeysOn(h, signers, poly, group, odd)
    requires AggregateDigit(h, ts, q, cs, shares, i).Ok?
    ensures |signers| == |q| && forall m :: 0 <= m < |q| ==> 0 < q[m]
    ensures forall m :: 0 <= m < |q| ==> LambdaFor(q[m], q).Ok?
    ensures Verify(h.env, group, h.digitMsg(Digits(price)[i]), AggregateDigit(h, ts, q, cs, shares, i).value) <==>
      Cong(N, Combination(Lambdas(q), KeyShares(signers)), PolyVal(poly, 0))
  {
    hide *;
    HonestQuorum(h, ts, price, q, signers, cs, shares);
    LambdableAt(q, 0);
    KeysOnGroup(h, signers, poly, group, odd);
    var secret := GroupSecret(h, group, odd, poly);
    var r, e, nonces, s := AggregateWorth(h, ts, price, q, signers, cs, shares, poly, group, odd, i);
    var weighted := Combination(Lambdas(q), KeyShares(signers));
    VerifyEquation(h.env, group, h.digitMsg(Digits(price)[i]), XOf(r), s);
    SumVerifiesIff(h.env, r, group, odd, secret, e, nonces, weighted, s);
    CongSwap(weighted, secret, PolyVal(poly, 0));
  }

  lemma CongSwap(a: int, b: int, c: int)
    requires Cong(N, b, c)
    ensures Cong(N, a, b) <==> Cong(N, a, c)
  {
    CongSym(N, b, c);
    hide Cong;
    if Cong(N, a, b) { CongTrans(N, a, b, c); }
    if Cong(N, a, c) { CongTrans(N, a, c, b); }
  }

  lemma WorthyIntro(h: Hashes, ts: Timestamp, q: seq<u16>, des: seq<DigitCommit>, shares: seq<SigShare>,
                    rOdd: bool, pkOdd: bool, e: int, i: nat, ls: seq<int>, xs: seq<int>)
    requires |des| == |q| == |ls| == |xs|
    requires forall k :: 0 <= k < |q| ==> WorthyAtSeat(h, ts, q, des, shares, rOdd, pkOdd, e, i, ls, xs, k)
    ensures Worthy(h, ts, q, des, shares, rOdd, pkOdd, e, i, ls, xs)
  {
    hide WorthyAtSeat;
  }

  lemma SumIsSome(acc: Option<SecretKey>, k: nat, v: int)
    requires SumIs(acc, k, v) && k > 0
    ensures acc.Some? && Cong(N, acc.value, v)
  {
  }

  lemma AggregateDigitParts(h: Hashes, ts: Timestamp, q: seq<u16>, cs: seq<NonceCommitment>, shares: seq<SigShare>,
                            i: nat)
    requires AggregateDigit(h, ts, q, cs, shares, i).Ok?
    ensures QuorumCommitments(q, cs, i).Ok?
    ensures NonceSession(h, ts, i, q, QuorumCommitments(q, cs, i).value).Some?
    ensures SumShares(q, shares, i, |q|).Ok? && SumShares(q, shares, i, |q|).value.Some?
    ensures AggregateDigit(h, ts, q, cs, shares, i).value ==
      Signature(OnCurve(XOf(NonceSession(h, ts, i, q, QuorumCommitments(q, cs, i).value).value.0)),
                SumShares(q, shares, i, |q|).value.value)
  {
    hide QuorumCommitments, NonceSession, SumShares, XOf;
  }

  lemma GroupSecret(h: Hashes, group: XOnlyKey, odd: bool, poly: seq<int>) returns (s: SecretKey)
    requires GroupKey(h, group, odd, poly)
    ensures Cong(N, s, PolyVal(poly, 0)) && group == XOf(PublicOf(s)) && odd == IsOdd(h.env, PublicOf(s))
  {
    hide Cong, PolyVal, XOf, IsOdd;
    s :| Cong(N, s, PolyVal(poly, 0)) && group == XOf(PublicOf(s)) && odd == IsOdd(h.env, PublicOf(s));
  }

  // -------------------------------------------------------------------- the theorem

  lemma LambdaSamples(h: Hashes, q: seq<Index>, signers: seq<Signer>, poly: seq<int>, group: XOnlyKey, odd: bool)
    requires IsPrime(N) && forall k :: 0 <= k < |q| ==> LambdaFor(q[k], q).Ok?
    requires Seats(signers, q) && KeysOn(h, signers, poly, group, odd)
    ensures |signers| == |q|
    ensures Samples(N, poly, Nodes(q), Nodes(q), Lambdas(q), KeyShares(signers))
  {
    hide IsPrime, LambdaFor, Cong, PolyVal, GroupKey, IsLambda;
    forall k | 0 <= k < |q|
      ensures IsLambda(N, Lambdas(q)[k], Nodes(q)[k], Nodes(q))
        && Cong(N, KeyShares(signers)[k], PolyVal(poly, Nodes(q)[k]))
    {
      LambdaIs(q[k], q);
      assert KeyOn(signers[k].key, poly, group, odd);
    }
  }

  /** What decides whether a quorum reconstructs the group secret: the divided difference of
      the group polynomial over zero and the members' indices. */
  function Excess(poly: seq<int>, q: seq<Index>): int {
    Divided(poly, [0] + Nodes(q))
  }

  /** It is zero with enough members, and the top coefficient with one too few. */
  lemma ExcessIs(poly: seq<int>, q: seq<Index>)
    ensures |poly| <= |q| ==> Excess(poly, q) == 0
    ensures |poly| == |q| + 1 ==> Excess(poly, q) == poly[|q|]
  {
    DividedOverNodes(poly, Nodes(q));
  }

  /** A quorum reconstructs the group secret exactly when the excess is zero, whatever the
      number of coefficients. */
  lemma SecretReconstructedIff(h: Hashes, q: seq<Index>, signers: seq<Signer>, poly: seq<int>, group: XOnlyKey,
                               odd: bool)
    requires IsPrime(N) && Distinctive(q) && |q| >= 2
    requires Seats(signers, q) && KeysOn(h, signers, poly, group, odd)
    ensures forall k :: 0 <= k < |q| ==> LambdaFor(q[k], q).Ok?
    ensures |signers| == |q|
    ensures Cong(N, Combination(Lambdas(q), KeyShares(signers)), PolyVal(poly, 0)) <==> Cong(N, Excess(poly, q), 0)
  {
    forall k | 0 <= k < |q|
      ensures LambdaFor(q[k], q).Ok?
    {
      hide IsPrime, LambdaFor, Seats, KeysOn;
      OtherMember(q, k);
      LambdaIs(q[k], q);
    }
    SeatCount(signers, q);
    NodesDistinct(q);
    assert Excess(poly, q) == Divided(poly, [0] + Nodes(q));
    hide *;
    LambdaSamples(h, q, signers, poly, group, odd);
    RecoveredIff(N, poly, Nodes(q), Lambdas(q), KeyShares(signers));
  }

  lemma SeatCount(signers: seq<Signer>, q: seq<u16>)
    requires Seats(signers, q)
    ensures |signers| == |q|
  {
  }

  lemma OtherMember(q: seq<Index>, k: nat)
    requires Distinctive(q) && |q| >= 2 && k < |q|
    ensures HasOther(q, q[k])
  {
    var m := if k == 0 then 1 else 0;
    assert q[m] in q && q[m] != q[k];
  }

  lemma {:induction false} AggregatePrefixAt(h: Hashes, ts: Timestamp, q: seq<u16>, cs: seq<NonceCommitment>,
                                             shares: seq<SigShare>, k: nat, i: nat)
    requires i < k && AggregatePrefix(h, ts, q, cs, shares, k).Ok?
    ensures AggregateDigit(h, ts, q, cs, shares, i).Ok?
    ensures AggregatePrefix(h, ts, q, cs, shares, k).value[i] == AggregateDigit(h, ts, q, cs, shares, i).value
  {
    hide AggregateDigit;
    if i < k - 1 { AggregatePrefixAt(h, ts, q, cs, shares, k - 1, i); }
  }

  /** The aggregated signatures carry the announced nonce points. */
  lemma {:induction false} AnnouncedNonces(h: Hashes, ts: Timestamp, q: seq<u16>, cs: seq<NonceCommitment>,
                                           shares: seq<SigShare>, k: nat)
    requires AggregatePrefix(h, ts, q, cs, shares, k).Ok?
    ensures NoncePoints(h, ts, q, cs, k).Ok?
    ensures forall i :: 0 <= i < k ==>
      AggregatePrefix(h, ts, q, cs, shares, k).value[i].r == NoncePoints(h, ts, q, cs, k).value[i]
  {
    if k > 0 {
      AnnouncedNonces(h, ts, q, cs, shares, k - 1);
      hide QuorumCommitments, NonceSession, SumShares, XOf;
    }
  }

  /** The threshold-signature theorem.  When the honest members of a quorum produce
      their shares and the aggregation goes through, every digit of the attestation is a
      BIP-340 signature under the group key, on the digit's message, with the nonce point
      that the announcement from the same commitments holds.  The polynomial degree has
      to be covered by the quorum. */
  lemma ThresholdSignature(h: Hashes, ts: Timestamp, price: nat, q: seq<u16>, signers: seq<Signer>,
                           cs: seq<NonceCommitment>,
                           shares: seq<SigShare>, poly: seq<int>, group: XOnlyKey, odd: bool, i: nat)
    requires IsPrime(N) && i < NB_DIGITS
    requires HonestCommitments(h, ts, q, signers, cs) && HonestShares(h, ts, price, q, signers, cs, shares)
    requires KeysOn(h, signers, poly, group, odd) && |poly| <= |q|
    requires AggregateAttestation(h, ts, price, q, cs, shares).Ok?
    ensures AggregateAnnouncement(h, ts, q, cs).Ok?
    ensures var att := AggregateAttestation(h, ts, price, q, cs, shares).value;
      && att.event == ts && att.price == price && |att.signatures| == NB_DIGITS
      && Verify(h.env, group, h.digitMsg(Digits(price)[i]), att.signatures[i])
      && att.signatures[i].r == AggregateAnnouncement(h, ts, q, cs).value.noncePoints[i]
  {
    hide Verify, Digits, AggregateDigit, AggregatePrefix, NoncePoints, IsPrime, HonestCommitments, HonestShares,
      KeysOn, Cong, PolyVal, LambdaFor, Excess;
    AnnouncedNonces(h, ts, q, cs, shares, NB_DIGITS);
    AggregatePrefixAt(h, ts, q, cs, shares, NB_DIGITS, i);
    QuorumIsLarge(h, ts, price, q, signers, cs, shares, i);
    SeatsOf(h, ts, q, signers, cs);
    DigitVerifiesIff(h, ts, price, q, signers, cs, shares, poly, group, odd, i);
    SecretReconstructedIff(h, q, signers, poly, group, odd);
    ExcessIs(poly, q);
    CongRefl(N, 0);
  }

  lemma SeatsOf(h: Hashes, ts: Timestamp, q: seq<u16>, signers: seq<Signer>, cs: seq<NonceCommitment>)
    requires HonestCommitments(h, ts, q, signers, cs)
    ensures Seats(signers, q)
  {
  }

  /** A quorum whose aggregation succeeds has two members at least. */
  lemma QuorumIsLarge(h: Hashes, ts: Timestamp, price: nat, q: seq<u16>, signers: seq<Signer>,
                      cs: seq<NonceCommitment>, shares: seq<SigShare>, i: nat)
    requires IsPrime(N)
    requires HonestCommitments(h, ts, q, signers, cs) && HonestShares(h, ts, price, q, signers, cs, shares)
    requires AggregateDigit(h, ts, q, cs, shares, i).Ok?
    ensures |q| >= 2 && Distinctive(q)
    ensures forall m :: 0 <= m < |q| ==> 0 < q[m]
  {
    AggregateDigitParts(h, ts, q, cs, shares, i);
    assert |q| > 0 by {
      hide IsPrime, HonestCommitments, HonestShares, QuorumCommitments, NonceSession, AggregateDigit;
    }
    hide *;
    HonestQuorum(h, ts, price, q, signers, cs, shares);
    LambdableAt(q, 0);
    LambdableDistinct(q);
    LambdaIs(q[0], q);
    TwoMembers(q);
  }

  lemma LambdableDistinct(q: seq<u16>)
    requires IsPrime(N) && Lambdable(q)
    ensures Distinctive(q)
  {
    hide IsPrime, LambdaFor;
  }

  lemma TwoMembers(q: seq<Index>)
    requires |q| > 0 && HasOther(q, q[0])
    ensures |q| >= 2
  {
  }

  /** The threshold is sharp.  Round 1 does not check how many coefficients a dealer commits
      to; whatever their number, a digit verifies exactly when the excess of the group
      polynomial over the quorum is zero.  With one member too few that is the top coefficient. */
  lemma ThresholdIsSharp(h: Hashes, ts: Timestamp, price: nat, q: seq<u16>, signers: seq<Signer>,
                         cs: seq<NonceCommitment>,
                         shares: seq<SigShare>, poly: seq<int>, group: XOnlyKey, odd: bool, i: nat)
    requires IsPrime(N) && i < NB_DIGITS
    requires HonestCommitments(h, ts, q, signers, cs) && HonestShares(h, ts, price, q, signers, cs, shares)
    requires KeysOn(h, signers, poly, group, odd)
    requires AggregateDigit(h, ts, q, cs, shares, i).Ok?
    ensures forall m :: 0 <= m < |q| ==> 0 < q[m]
    ensures Verify(h.env, group, h.digitMsg(Digits(price)[i]), AggregateDigit(h, ts, q, cs, shares, i).value) <==>
      Cong(N, Excess(poly, q), 0)
    ensures |poly| == |q| + 1 ==> Excess(poly, q) == poly[|q|]
  {
    hide Verify, Digits, AggregateDigit, IsPrime, HonestCommitments, HonestShares, KeysOn, Cong, PolyVal, LambdaFor,
      Excess;
    QuorumIsLarge(h, ts, price, q, signers, cs, shares, i);
    SeatsOf(h, ts, q, signers, cs);
    DigitVerifiesIff(h, ts, price, q, signers, cs, shares, poly, group, odd, i);
    SecretReconstructedIff(h, q, signers, poly, group, odd);
    ExcessIs(poly, q);
  }
}
