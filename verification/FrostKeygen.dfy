/** Key generation: what accepted messages commit the participants to. */
module FrostKeygen {
  import opened Options
  import opened Modular
  import opened Secp
  import opened Schnorr
  import opened Lagrange
  import opened Frost

  function Logs(ps: seq<PublicKey>): (ls: seq<int>)
    ensures |ls| == |ps|
  {
    seq(|ps|, i requires 0 <= i < |ps| => ps[i].log)
  }

  function Ints(ks: seq<SecretKey>): (r: seq<int>)
    ensures |r| == |ks|
  {
    seq(|ks|, i requires 0 <= i < |ks| => ks[i])
  }

  // --------------------------------------------------------- the two evaluations

  lemma {:induction false} HornerIsPoly(cs: seq<SecretKey>, x: SecretKey)
    requires |cs| > 0 && Horner(cs, x).Some?
    ensures Cong(N, Horner(cs, x).value, PolyVal(Ints(cs), x))
  {
    hide Cong, MulTweak, AddTweak, PolyVal;
    if |cs| == 1 {
      assert Ints(cs) == [cs[0] as int];
      PolyOfOne(cs[0], x);
      CongRefl(N, cs[0]);
    } else {
      HornerIsPoly(cs[1..], x);
      assert Ints(cs)[1..] == Ints(cs[1..]);
      PolyStep(Ints(cs), x);
      var acc := Horner(cs[1..], x).value;
      var scaled := MulTweak(acc, x).value;
      MulTweakCong(acc, x);
      HornerStep(Horner(cs, x).value, scaled, acc, PolyVal(Ints(cs[1..]), x), x, cs[0]);
    }
  }

  lemma HornerStep(r: int, scaled: int, acc: int, v: int, x: int, c: int)
    requires Cong(N, r, scaled + c) && Cong(N, scaled, acc * x) && Cong(N, acc, v)
    ensures Cong(N, r, c + x * v)
  {
    hide *;
    CongRefl(N, x);
    CongRefl(N, c);
    CongMul(N, acc, v, x, x);
    CongTrans(N, scaled, acc * x, v * x);
    CongAdd(N, scaled, v * x, c, c);
    CongTrans(N, r, scaled + c, v * x + c);
    assert v * x + c == c + x * v;
  }

  /** Some tail of the coefficients (the whole included) is a polynomial with the
      root `x`. */
  ghost predicate SomeTailVanishes(cs: seq<int>, x: int) {
    |cs| > 0 && (Cong(N, PolyVal(cs, x), 0) || SomeTailVanishes(cs[1..], x))
  }

  /** Horner evaluation over nonzero scalars fails exactly when a tail vanishes. */
  lemma {:induction false} HornerFailsIff(cs: seq<SecretKey>, x: SecretKey)
    requires IsPrime(N) && |cs| > 0
    ensures Horner(cs, x).None? <==> SomeTailVanishes(Ints(cs), x)
  {
    hide IsPrime, Cong, MulTweak, AddTweak, PolyVal;
    if |cs| == 1 {
      PolyOfOne(cs[0], x);
      assert Ints(cs) == [cs[0] as int];
      NotZero(cs[0]);
    } else {
      HornerFailsIff(cs[1..], x);
      assert Ints(cs)[1..] == Ints(cs[1..]);
      if Horner(cs[1..], x).Some? {
        HornerIsPoly(cs[1..], x);
        HornerLast(Horner(cs[1..], x).value, cs, x);
      }
    }
  }

  lemma HornerLast(acc: SecretKey, cs: seq<SecretKey>, x: SecretKey)
    requires IsPrime(N) && |cs| > 1
    requires Cong(N, acc, PolyVal(Ints(cs[1..]), x))
    ensures MulTweak(acc, x).Some?
    ensures AddTweak(MulTweak(acc, x).value, cs[0]).None? <==> Cong(N, PolyVal(Ints(cs), x), 0)
  {
    assert Ints(cs)[1..] == Ints(cs[1..]);
    hide *;
    MulTweakFails(acc, x);
    NotZero(x);
    CongRefl(N, 0);
    MulTweakCong(acc, x);
    PolyStep(Ints(cs), x);
    HornerZero(MulTweak(acc, x).value, acc, PolyVal(Ints(cs[1..]), x), x, cs[0]);
  }

  lemma HornerZero(scaled: SecretKey, acc: int, v: int, x: int, c: SecretKey)
    requires Cong(N, scaled, acc * x) && Cong(N, acc, v)
    ensures AddTweak(scaled, c).None? <==> Cong(N, c + x * v, 0)
  {
    hide *;
    CongRefl(N, scaled as int + c);
    HornerStep(scaled as int + c, scaled, acc, v, x, c);
    AddTweakIs(scaled, c, c + x * v);
  }

  lemma {:induction false} PolyAppend(cs: seq<int>, c: int, x: int)
    ensures PolyVal(cs + [c], x) == PolyVal(cs, x) + c * Pow(x, |cs|)
  {
    if |cs| == 0 {
      assert cs + [c] == [c];
      PolyOfOne(c, x);
      assert Pow(x, 0) == 1 && PolyVal(cs, x) == 0;
    } else {
      PolyAppend(cs[1..], c, x);
      assert (cs + [c])[1..] == cs[1..] + [c];
      PolyStep(cs, x);
      PolyStep(cs + [c], x);
      PowStep(x, |cs| - 1);
      hide PolyVal, Pow;
      PowerShift(x, c, Pow(x, |cs| - 1), PolyVal(cs[1..], x));
    }
  }

  lemma PowerShift(x: int, c: int, p: int, v: int)
    ensures x * (v + c * p) == x * v + c * (x * p)
  {
  }

  lemma {:induction false} EvalPrefixIs(cs: seq<PublicKey>, x: SecretKey, k: nat)
    requires 0 < k <= |cs| && EvalPrefix(cs, x, k).Some?
    ensures Cong(N, EvalPrefix(cs, x, k).value.0.log, PolyVal(Logs(cs)[..k], x))
    ensures Cong(N, EvalPrefix(cs, x, k).value.1, Pow(x, k))
  {
    hide Cong, Combine, TweakPoint, MulTweak, Pow, PolyVal;
    if k == 1 {
      FirstPoint(cs, x);
    } else {
      EvalPrefixIs(cs, x, k - 1);
      var (acc, power) := EvalPrefix(cs, x, k - 1).value;
      var term := TweakPoint(cs[k - 1], power).value;
      var acc' := Combine(acc, term).value;
      var power' := MulTweak(power, x).value;
      assert Logs(cs)[..k] == Logs(cs)[..k - 1] + [cs[k - 1].log as int];
      PolyAppend(Logs(cs)[..k - 1], cs[k - 1].log, x);
      PowStep(x, k - 1);
      MulTweakCong(power, x);
      TimesIs(cs[k - 1].log, power);
      EvalStep(acc'.log, acc.log, term.log, power', power, cs[k - 1].log, x, PolyVal(Logs(cs)[..k - 1], x),
               Pow(x, k - 1));
    }
  }

  lemma FirstPoint(cs: seq<PublicKey>, x: SecretKey)
    requires |cs| > 0
    ensures Cong(N, cs[0].log, PolyVal(Logs(cs)[..1], x)) && Cong(N, x, Pow(x, 1))
  {
    assert Logs(cs)[..1] == [cs[0].log as int];
    PolyOfOne(cs[0].log, x);
    PowStep(x, 0);
    hide Pow, Cong;
    CongRefl(N, cs[0].log);
    CongRefl(N, x);
  }

  lemma EvalStep(acc': int, acc: int, term: int, power': int, power: int, c: int, x: int, v: int, p: int)
    requires Cong(N, acc', acc + term) && Cong(N, term, c * power) && Cong(N, power', power * x)
    requires Cong(N, acc, v) && Cong(N, power, p)
    ensures Cong(N, acc', v + c * p) && Cong(N, power', x * p)
  {
    hide *;
    CongRefl(N, c);
    CongRefl(N, x);
    CongMul(N, c, c, power, p);
    CongTrans(N, term, c * power, c * p);
    CongAdd(N, acc, v, term, c * p);
    CongTrans(N, acc', acc + term, v + c * p);
    CongMul(N, power, p, x, x);
    CongTrans(N, power', power * x, p * x);
    assert p * x == x * p;
  }

  /** The committed polynomial at a point, in the exponent. */
  lemma CommitmentIsPoly(cs: seq<PublicKey>, x: SecretKey)
    requires CommitmentAt(cs, x).Some?
    ensures Cong(N, CommitmentAt(cs, x).value.log, PolyVal(Logs(cs), x))
  {
    EvalPrefixIs(cs, x, |cs|);
    assert Logs(cs)[..|cs|] == Logs(cs);
  }

  /** Some prefix of the coefficients (the whole included) is a polynomial with the
      root `x`. */
  ghost predicate SomePrefixVanishes(cs: seq<int>, x: int) {
    |cs| > 0 && (Cong(N, PolyVal(cs, x), 0) || SomePrefixVanishes(cs[..|cs| - 1], x))
  }

  /** The next step of the public evaluation fails exactly when the sum is at infinity. */
  lemma EvalLast(cs: seq<PublicKey>, x: SecretKey, k: nat)
    requires IsPrime(N) && 1 < k <= |cs| && EvalPrefix(cs, x, k - 1).Some?
    ensures EvalPrefix(cs, x, k).None? <==> Cong(N, PolyVal(Logs(cs)[..k], x), 0)
  {
    assert Logs(cs)[..k] == Logs(cs)[..k - 1] + [cs[k - 1].log as int];
    hide *;
    var (acc, power) := EvalPrefix(cs, x, k - 1).value;
    TermExists(cs[k - 1], power);
    NotZero(x);
    CongRefl(N, 0);
    MulTweakFails(power, x);
    EvalUnfold(cs, x, k);
    EvalPrefixIs(cs, x, k - 1);
    PolyAppend(Logs(cs)[..k - 1], cs[k - 1].log, x);
    SumFails(acc, TweakPoint(cs[k - 1], power).value, power, cs[k - 1].log, PolyVal(Logs(cs)[..k - 1], x),
             Pow(x, k - 1));
  }

  lemma EvalUnfold(cs: seq<PublicKey>, x: SecretKey, k: nat)
    requires 1 < k <= |cs| && EvalPrefix(cs, x, k - 1).Some?
    requires TweakPoint(cs[k - 1], EvalPrefix(cs, x, k - 1).value.1).Some?
      && MulTweak(EvalPrefix(cs, x, k - 1).value.1, x).Some?
    ensures var (acc, power) := EvalPrefix(cs, x, k - 1).value;
      EvalPrefix(cs, x, k).None? <==> Combine(acc, TweakPoint(cs[k - 1], power).value).None?
  {
    hide Combine, TweakPoint, MulTweak;
  }

  lemma TermExists(p: PublicKey, power: SecretKey)
    requires IsPrime(N)
    ensures TweakPoint(p, power).Some?
    ensures Cong(N, TweakPoint(p, power).value.log, p.log * power)
  {
    MulTweakFails(p.log, power);
    MulTweakCong(p.log, power);
    hide IsPrime, Cong, MulTweak;
  }

  lemma SumFails(acc: PublicKey, term: PublicKey, power: int, c: int, v: int, p: int)
    requires Cong(N, term.log, c * power) && Cong(N, acc.log, v) && Cong(N, power, p)
    ensures Combine(acc, term).None? <==> Cong(N, v + c * p, 0)
  {
    assert Combine(acc, term).None? <==> AddTweak(acc.log, term.log).None? by { hide AddTweak; }
    hide *;
    CongRefl(N, c);
    CongMul(N, c, c, power, p);
    CongTrans(N, term.log, c * power, c * p);
    CongAdd(N, acc.log, v, term.log, c * p);
    AddTweakIs(acc.log, term.log, v + c * p);
  }

  lemma {:induction false} EvalPrefixFailsIff(cs: seq<PublicKey>, x: SecretKey, k: nat)
    requires IsPrime(N) && 0 < k <= |cs|
    ensures EvalPrefix(cs, x, k).None? <==> SomePrefixVanishes(Logs(cs)[..k], x)
  {
    hide IsPrime, Cong, PolyVal, Combine, TweakPoint, MulTweak;
    if k == 1 {
      assert Logs(cs)[..1] == [cs[0].log as int] && Logs(cs)[..1][..0] == [];
      PolyOfOne(cs[0].log, x);
      NotZero(cs[0].log);
    } else {
      EvalPrefixFailsIff(cs, x, k - 1);
      assert Logs(cs)[..k][..k - 1] == Logs(cs)[..k - 1];
      if EvalPrefix(cs, x, k - 1).Some? { EvalLast(cs, x, k); }
    }
  }

  /** The public evaluation fails exactly when there is nothing committed or a prefix of the
      committed coefficients vanishes: Horner evaluation fails on tails instead. */
  lemma CommitmentFailsIff(cs: seq<PublicKey>, x: SecretKey)
    requires IsPrime(N)
    ensures CommitmentAt(cs, x).None? <==> |cs| == 0 || SomePrefixVanishes(Logs(cs), x)
  {
    if |cs| > 0 {
      EvalPrefixFailsIff(cs, x, |cs|);
      assert Logs(cs)[..|cs|] == Logs(cs);
    }
    hide IsPrime, EvalPrefix, SomePrefixVanishes;
  }

  /** A dealt share is accepted exactly when it is the committed polynomial's value and no
      prefix of the committed coefficients vanishes at the recipient. */
  lemma ShareAcceptedExactly(share: Round2Share, cs: seq<PublicKey>)
    requires IsPrime(N)
    ensures VerifyRound2Share(share, cs) <==>
      && 0 < share.share < N && Cong(N, share.share, PolyVal(Logs(cs), share.to))
      && |cs| > 0 && !SomePrefixVanishes(Logs(cs), share.to)
  {
    CommitmentFailsIff(cs, share.to);
    hide IsPrime, Cong, CommitmentAt, PolyVal, SomePrefixVanishes;
    if CommitmentAt(cs, share.to).Some? { ShareAcceptedIff(share, cs); }
  }

  /** A share for which the public evaluation goes through. */
  lemma ShareAcceptedIff(share: Round2Share, cs: seq<PublicKey>)
    requires CommitmentAt(cs, share.to).Some?
    ensures VerifyRound2Share(share, cs) <==> 0 < share.share < N && Cong(N, share.share, PolyVal(Logs(cs), share.to))
  {
    CommitmentIsPoly(cs, share.to);
    var p, v := CommitmentAt(cs, share.to).value, PolyVal(Logs(cs), share.to);
    hide Cong, CommitmentAt, PolyVal;
    if 0 < share.share < N && Cong(N, share.share, v) {
      CongSym(N, p.log, v);
      CongTrans(N, share.share, v, p.log);
      CongUnique(N, share.share, p.log);
    }
  }

  // ---------------------------------------------------------- the group polynomial

  function PolyAdd(a: seq<int>, b: seq<int>): (r: seq<int>)
    ensures |r| == if |a| > |b| then |a| else |b|
  {
    if |a| == 0 then b else if |b| == 0 then a else [a[0] + b[0]] + PolyAdd(a[1..], b[1..])
  }

  lemma {:induction false} PolyAddValue(a: seq<int>, b: seq<int>, x: int)
    ensures PolyVal(PolyAdd(a, b), x) == PolyVal(a, x) + PolyVal(b, x)
  {
    if |a| > 0 && |b| > 0 {
      PolyAddValue(a[1..], b[1..], x);
      assert PolyAdd(a, b)[1..] == PolyAdd(a[1..], b[1..]);
      PolyStep(a, x);
      PolyStep(b, x);
      PolyStep(PolyAdd(a, b), x);
      hide PolyVal;
      AddStep(a[0], b[0], x, PolyVal(a[1..], x), PolyVal(b[1..], x));
    }
  }

  lemma AddStep(a: int, b: int, x: int, v: int, w: int)
    ensures a + b + x * (v + w) == (a + x * v) + (b + x * w)
  {
  }

  /** The sum of the polynomials that dealers 1..=k committed to. */
  function GroupPoly(round1: seq<Round1Package>, k: nat): seq<int> {
    if k == 0 then [] else
    var pkg := FindPackage(round1, k);
    PolyAdd(GroupPoly(round1, k - 1), if pkg.None? then [] else Logs(pkg.value.commitment))
  }

  lemma {:induction false} GroupPolyLength(round1: seq<Round1Package>, k: nat, t: nat)
    requires forall pkg :: pkg in round1 ==> |pkg.commitment| <= t
    ensures |GroupPoly(round1, k)| <= t
  {
    hide PolyAdd, FindPackage, Logs;
    if k > 0 {
      GroupPolyLength(round1, k - 1, t);
      var pkg := FindPackage(round1, k);
      assert pkg.Some? ==> |Logs(pkg.value.commitment)| <= t;
    }
  }

  lemma CombinedIs(acc: Option<PublicKey>, t: PublicKey, v: int)
    requires CombineInto(acc, t).Some?
    requires acc.Some? ==> Cong(N, acc.value.log, v)
    requires acc.None? ==> v == 0
    ensures Cong(N, CombineInto(acc, t).value.log, v + t.log)
  {
    if acc.None? {
      CongRefl(N, t.log);
    } else {
      SumStep(CombineInto(acc, t).value.log, acc.value.log, v, t.log);
    }
  }

  lemma AddedIs(acc: Option<SecretKey>, t: SecretKey, v: int)
    requires AddInto(acc, t).Some?
    requires acc.Some? ==> Cong(N, acc.value, v)
    requires acc.None? ==> v == 0
    ensures Cong(N, AddInto(acc, t).value, v + t)
  {
    if acc.None? {
      CongRefl(N, t);
    } else {
      SumStep(AddInto(acc, t).value, acc.value, v, t);
    }
  }

  lemma SumStep(r: int, a: int, v: int, t: int)
    requires Cong(N, r, a + t) && Cong(N, a, v)
    ensures Cong(N, r, v + t)
  {
    hide *;
    CongRefl(N, t);
    CongAdd(N, a, v, t, t);
    CongTrans(N, r, a + t, v + t);
  }

  lemma {:induction false} FinalizePrefixIs(h: Hashes, index: Index, round1: seq<Round1Package>,
                                            shares: seq<Round2Share>, k: nat)
    requires FinalizePrefix(h, index, round1, shares, k).Ok?
    ensures var (x, pk) := FinalizePrefix(h, index, round1, shares, k).value;
      && (k > 0 ==> x.Some? && pk.Some?)
      && (x.Some? ==> Cong(N, x.value, PolyVal(GroupPoly(round1, k), index)))
      && (pk.Some? ==> Cong(N, pk.value.log, PolyVal(GroupPoly(round1, k), 0)))
      && (k == 0 ==> x.None? && pk.None?)
  {
    hide AddTweak, Combine, Verify, VerifyRound1, VerifyRound2Share, Cong, PolyVal, PolyAdd, CommitmentAt, FindPackage,
      FindShare, AddInto, CombineInto, Logs;
    if k > 0 {
      FinalizePrefixIs(h, index, round1, shares, k - 1);
      var (x, pk) := FinalizePrefix(h, index, round1, shares, k - 1).value;
      var pkg, share := FindPackage(round1, k).value, FindShare(shares, k, index).value;
      var before, mine := GroupPoly(round1, k - 1), Logs(pkg.commitment);
      if k == 1 { EmptyPoly(index); EmptyPoly(0); }
      AcceptedShareIsPoly(share, pkg.commitment);
      VerifiedNonEmpty(h, pkg);
      AddedIs(x, share.share, PolyVal(before, index));
      CombinedIs(pk, pkg.commitment[0], PolyVal(before, 0));
      PolyAddValue(before, mine, index);
      PolyAddValue(before, mine, 0);
      ConstantTerm(pkg.commitment);
      var x', pk' := AddInto(x, share.share).value, CombineInto(pk, pkg.commitment[0]).value;
      Accumulate(x', PolyVal(before, index), share.share, PolyVal(mine, index));
    }
  }

  lemma AcceptedShareIsPoly(share: Round2Share, cs: seq<PublicKey>)
    requires VerifyRound2Share(share, cs)
    ensures 0 < share.share < N && Cong(N, share.share, PolyVal(Logs(cs), share.to))
  {
    hide CommitmentAt, Cong, PolyVal, Logs;
    ShareAcceptedIff(share, cs);
  }

  lemma VerifiedNonEmpty(h: Hashes, pkg: Round1Package)
    requires VerifyRound1(h, pkg)
    ensures |pkg.commitment| > 0
  {
  }

  lemma EmptyPoly(x: int)
    ensures PolyVal([], x) == 0
  {
  }

  lemma ConstantTerm(cs: seq<PublicKey>)
    requires |cs| > 0
    ensures PolyVal(Logs(cs), 0) == cs[0].log
  {
  }

  lemma Accumulate(x': int, v: int, share: int, w: int)
    requires Cong(N, x', v + share) && Cong(N, share, w)
    ensures Cong(N, x', v + w)
  {
    hide *;
    CongRefl(N, v);
    CongAdd(N, v, v, share, w);
    CongTrans(N, x', v + share, v + w);
  }

  /** The group public key, as the constant term of the group polynomial. */
  ghost predicate GroupKey(h: Hashes, groupPubkey: XOnlyKey, pkOdd: bool, poly: seq<int>) {
    exists s: SecretKey {:trigger PublicOf(s)} ::
      Cong(N, s, PolyVal(poly, 0)) && groupPubkey == XOf(PublicOf(s)) && pkOdd == IsOdd(h.env, PublicOf(s))
  }

  /** Every participant that finalizes from the same broadcasts holds the group key and
      its own point of the group polynomial. */
  lemma FinalizedKey(h: Hashes, index: Index, n: u16, t: u16, round1: seq<Round1Package>, shares: seq<Round2Share>)
    requires FinalizeKey(h, index, n, t, round1, shares).Ok?
    ensures var key := FinalizeKey(h, index, n, t, round1, shares).value;
      && key.index == index && key.n == n && key.t == t
      && 0 < key.x < N
      && Cong(N, key.x, PolyVal(GroupPoly(round1, n), index))
      && GroupKey(h, key.groupPubkey, key.pkOdd, GroupPoly(round1, n))
  {
    hide Cong, PolyVal, GroupPoly, FinalizePrefix, XOf, IsOdd;
    FinalizePrefixIs(h, index, round1, shares, n);
    var (x, pk) := FinalizePrefix(h, index, round1, shares, n).value;
    assert pk.value == PublicOf(pk.value.log);
  }

  /** The group key depends on the broadcasts alone. */
  lemma SameGroupKey(h: Hashes, a: XOnlyKey, aOdd: bool, b: XOnlyKey, bOdd: bool, poly: seq<int>)
    requires GroupKey(h, a, aOdd, poly) && GroupKey(h, b, bOdd, poly)
    ensures a == b && aOdd == bOdd
  {
    hide Cong, PolyVal, XOf, IsOdd;
    var s: SecretKey :| Cong(N, s, PolyVal(poly, 0)) && a == XOf(PublicOf(s)) && aOdd == IsOdd(h.env, PublicOf(s));
    var r: SecretKey :| Cong(N, r, PolyVal(poly, 0)) && b == XOf(PublicOf(r)) && bOdd == IsOdd(h.env, PublicOf(r));
    CongSym(N, r, PolyVal(poly, 0));
    CongTrans(N, s, PolyVal(poly, 0), r);
    CongUnique(N, s, r);
  }

  // -------------------------------------------------------------- honest dealers

  /** A dealer's own broadcast is accepted.  Its share can be formed exactly when no tail of
      its coefficients vanishes at the recipient, and is then accepted exactly when no prefix
      does. */
  lemma HonestDealerAccepted(h: Hashes, index: u16, n: u16, t: u16, seed: Seed, to: Index)
    requires IsPrime(N) && NewDealer(h, index, n, t, seed).Ok?
    ensures var d := NewDealer(h, index, n, t, seed).value;
      && VerifyRound1(h, Round1(d))
      && |d.poly| == |d.commitment| == t > 0
      && (Round2(d, to).Ok? <==> !SomeTailVanishes(Ints(d.poly), to))
      && (Round2(d, to).Ok? ==>
          (VerifyRound2Share(Round2(d, to).value, d.commitment) <==> !SomePrefixVanishes(Ints(d.poly), to)))
  {
    var d := NewDealer(h, index, n, t, seed).value;
    hide Verify, SignWithNonce, Horner, CommitmentAt, PolyVal, Cong, XOf, IsPrime, SomePrefixVanishes,
      SomeTailVanishes, VerifyRound2Share;
    SignedVerifies(h.env, d.poly[0], h.pokNonce(d.seed), h.pokMessage(index, d.commitment[0]));
    assert d.commitment[0] == PublicOf(d.poly[0]);
    assert Logs(d.commitment) == Ints(d.poly);
    HornerFailsIff(d.poly, to);
    if Round2(d, to).Ok? {
      HornerIsPoly(d.poly, to);
      ShareAcceptedExactly(Round2(d, to).value, d.commitment);
    }
  }

  /** A share that is formed and refused: with coefficients 1, -1 and 2 the first two vanish
      at participant 1, and no tail does. */
  lemma PrefixButNoTail()
    ensures SomePrefixVanishes([1, N - 1, 2], 1) && !SomeTailVanishes([1, N - 1, 2], 1)
  {
    var cs := [1, N - 1, 2];
    assert cs[1..] == [N - 1, 2] && cs[1..][1..] == [2] && cs[..2] == [1, N - 1] && [1, N - 1][1..] == [N - 1];
    PolyOfOne(2, 1);
    PolyOfOne(N - 1, 1);
    PolyStep(cs[1..], 1);
    PolyStep(cs, 1);
    PolyStep(cs[..2], 1);
    assert PolyVal(cs[..2], 1) == N && PolyVal(cs[1..], 1) == N + 1 && PolyVal(cs, 1) == N + 2;
    hide PolyVal, Cong;
    CongIntro(N, N, 0, 1);
    SmallNotZero(2, 0);
    SmallNotZero(1, 1);
    SmallNotZero(2, 1);
    assert SomePrefixVanishes(cs[..2], 1);
    assert !SomeTailVanishes([2], 1) && !SomeTailVanishes([N - 1, 2], 1);
  }

  lemma SmallNotZero(v: int, k: int)
    requires 0 < v < N
    ensures !Cong(N, v + k * N, 0)
  {
    CongIntro(N, v, v + k * N, -k);
    hide Cong;
    if Cong(N, v + k * N, 0) {
      CongTrans(N, v, v + k * N, 0);
      CongUnique(N, v, 0);
    }
  }
}
