/** The threshold oracle: Pedersen key generation and two-nonce threshold signing.

    Loops over coefficients, participants and digits are methods; each is proved equal
    to a function that takes the same steps in the same order, and the theorems about
    whole protocol runs (modules FrostKeygen and FrostSigning) are about those functions. */
module Frost {
  import opened Options
  import opened Modular
  import opened Bytes
  import opened Secp
  import opened Schnorr
  import opened ScalarBytes
  import opened Event

  /** The source's errors, and the one place where it panics. */
  datatype FrostError = BadShare | BadPok | QuorumTooSmall | BadQuorum | BadParams | MissingMessage | Crypto | Panicked

  type u16 = j: nat | j < 0x1_0000

  /** A participant index as a nonzero scalar. */
  type Index = j: nat | 0 < j < 0x1_0000 witness 1

  type Seed = Bytes32
  type Timestamp = u64
  type DigitCommit = (PublicKey, PublicKey)

  /** The tagged hashes of the protocol, with every input they bind. */
  datatype Hashes = Hashes(
    env: Env,
    digitMsg: Digit -> Bytes32,
    participantSeed: (Seed, Index) -> Seed,
    coefficient: (Seed, nat) -> SecretKey,
    pokNonce: Seed -> Bytes32,
    pokMessage: (u16, PublicKey) -> Bytes32,
    hidingNonce: (Seed, Timestamp, nat) -> SecretKey,
    bindingNonce: (Seed, Timestamp, nat) -> SecretKey,
    bindingFactor: (u16, Timestamp, nat, seq<u16>, seq<DigitCommit>) -> SecretKey)

  function Lift<T>(o: Option<T>): Result<T, FrostError> {
    if o.None? then Err(Crypto) else Ok(o.value)
  }

  /** The accumulators of the loops: the first term starts them. */
  function AddInto(acc: Option<SecretKey>, t: SecretKey): Option<SecretKey> {
    if acc.None? then Some(t) else AddTweak(acc.value, t)
  }

  function MulInto(acc: Option<SecretKey>, t: SecretKey): Option<SecretKey> {
    if acc.None? then Some(t) else MulTweak(acc.value, t)
  }

  function CombineInto(acc: Option<PublicKey>, t: PublicKey): Option<PublicKey> {
    if acc.None? then Some(t) else Combine(acc.value, t)
  }

  // ------------------------------------------------------- polynomials in a field

  /** Horner's rule from the top coefficient down. */
  function Horner(coeffs: seq<SecretKey>, x: SecretKey): Option<SecretKey>
    requires |coeffs| > 0
  {
    if |coeffs| == 1 then Some(coeffs[0]) else
    var acc :- Horner(coeffs[1..], x);
    var scaled :- MulTweak(acc, x);
    AddTweak(scaled, coeffs[0])
  }

  lemma {:induction false} HornerFails(coeffs: seq<SecretKey>, i: nat, x: SecretKey)
    requires i < |coeffs| && Horner(coeffs[i..], x).None?
    ensures Horner(coeffs, x).None?
    decreases i
  {
    if i == 0 {
      assert coeffs[0..] == coeffs;
    } else {
      assert coeffs[i - 1..][1..] == coeffs[i..];
      HornerFails(coeffs, i - 1, x);
    }
  }

  method PolyEval(coeffs: seq<SecretKey>, x: SecretKey) returns (r: Option<SecretKey>)
    requires |coeffs| > 0
    ensures r == Horner(coeffs, x)
  {
    hide MulTweak, AddTweak, Cong;
    var i: nat := |coeffs| - 1;
    var acc: SecretKey := coeffs[i];
    while i > 0
      invariant i < |coeffs|
      invariant Horner(coeffs[i..], x) == Some(acc)
    {
      i := i - 1;
      assert coeffs[i..][1..] == coeffs[i + 1..];
      var scaled := MulTweak(acc, x);
      if scaled.None? { HornerFails(coeffs, i, x); return None; }
      var sum := AddTweak(scaled.value, coeffs[i]);
      if sum.None? { HornerFails(coeffs, i, x); return None; }
      acc := sum.value;
    }
    assert coeffs[0..] == coeffs;
    r := Some(acc);
  }

  /** The commitment evaluated in the exponent, after `k` of its points: the
      accumulated sum and the running power. */
  function EvalPrefix(cs: seq<PublicKey>, x: SecretKey, k: nat): Option<(PublicKey, SecretKey)>
    requires 0 < k <= |cs|
  {
    if k == 1 then Some((cs[0], x)) else
    var (acc, power) :- EvalPrefix(cs, x, k - 1);
    var term :- TweakPoint(cs[k - 1], power);
    var acc' :- Combine(acc, term);
    var power' :- MulTweak(power, x);
    Some((acc', power'))
  }

  function CommitmentAt(cs: seq<PublicKey>, x: SecretKey): Option<PublicKey> {
    if |cs| == 0 then None else
    var (acc, _) :- EvalPrefix(cs, x, |cs|);
    Some(acc)
  }

  lemma {:induction false} EvalPrefixFails(cs: seq<PublicKey>, x: SecretKey, k: nat, n: nat)
    requires 0 < k <= n <= |cs| && EvalPrefix(cs, x, k).None?
    ensures EvalPrefix(cs, x, n).None?
  {
    if k < n { EvalPrefixFails(cs, x, k, n - 1); }
  }

  method EvalCommitment(cs: seq<PublicKey>, x: SecretKey) returns (r: Option<PublicKey>)
    ensures r == CommitmentAt(cs, x)
  {
    hide MulTweak, Combine, TweakPoint, Cong;
    var acc: Option<PublicKey>, power: Option<SecretKey> := None, None;
    for k := 0 to |cs|
      invariant k == 0 ==> acc.None? && power.None?
      invariant k > 0 ==> acc.Some? && power.Some? && EvalPrefix(cs, x, k) == Some((acc.value, power.value))
    {
      var term;
      if power.None? {
        term := cs[k];
      } else {
        var t := TweakPoint(cs[k], power.value);
        if t.None? { EvalPrefixFails(cs, x, k + 1, |cs|); return None; }
        term := t.value;
      }
      if acc.None? {
        acc := Some(term);
      } else {
        acc := Combine(acc.value, term);
        if acc.None? { EvalPrefixFails(cs, x, k + 1, |cs|); return None; }
      }
      if power.None? {
        power := Some(x);
      } else {
        power := MulTweak(power.value, x);
        if power.None? { EvalPrefixFails(cs, x, k + 1, |cs|); return None; }
      }
    }
    r := acc;
  }

  // --------------------------------------------------------- Lagrange coefficients

  /** Numerator and denominator over the first `k` members of the quorum. */
  function LagrangePrefix(j: Index, quorum: seq<Index>,
                          k: nat): Result<(Option<SecretKey>, Option<SecretKey>), FrostError>
    requires k <= |quorum|
  {
    if k == 0 then Ok((None, None)) else
    var (num, den) :- LagrangePrefix(j, quorum, k - 1);
    var m := quorum[k - 1];
    if m == j then Ok((num, den)) else
    var num' :- Lift(MulInto(num, m));
    var diff :- Lift(AddTweak(m, Negate(j)));
    var den' :- Lift(MulInto(den, diff));
    Ok((Some(num'), Some(den')))
  }

  ghost function LambdaFor(j: Index, quorum: seq<Index>): Result<SecretKey, FrostError>
    requires IsPrime(N)
  {
    var (num, den) :- LagrangePrefix(j, quorum, |quorum|);
    if num.None? || den.None? then Err(QuorumTooSmall) else
    Lift(MulTweak(num.value, InverseOf(N, den.value)))
  }

  lemma {:induction false} LagrangePrefixFails(j: Index, quorum: seq<Index>, k: nat, n: nat)
    requires k <= n <= |quorum| && LagrangePrefix(j, quorum, k).Err?
    ensures LagrangePrefix(j, quorum, n) == LagrangePrefix(j, quorum, k)
  {
    if k < n { LagrangePrefixFails(j, quorum, k, n - 1); }
  }

  method LagrangeAtZero(j: Index, quorum: seq<Index>) returns (r: Result<SecretKey, FrostError>)
    ensures IsPrime(N) ==> r == LambdaFor(j, quorum)
  {
    hide IsPrime, MulTweak, AddTweak, InverseOf, Negate, Cong, Pow;
    var num: Option<SecretKey>, den: Option<SecretKey> := None, None;
    for k := 0 to |quorum|
      invariant LagrangePrefix(j, quorum, k) == Ok((num, den))
    {
      var m := quorum[k];
      if m == j { continue; }
      num := MulInto(num, m);
      if num.None? { LagrangePrefixFails(j, quorum, k + 1, |quorum|); return Err(Crypto); }
      var diff := AddTweak(m, Negate(j));
      if diff.None? { LagrangePrefixFails(j, quorum, k + 1, |quorum|); return Err(Crypto); }
      den := MulInto(den, diff.value);
      if den.None? { LagrangePrefixFails(j, quorum, k + 1, |quorum|); return Err(Crypto); }
    }
    if num.None? || den.None? { return Err(QuorumTooSmall); }
    var inverse := InvertModN(den.value);
    if inverse.None? { return Err(Crypto); }
    r := Lift(MulTweak(num.value, inverse.value));
  }

  /** A quorum: at least `t` indices, each in 1..=n, none repeated. */
  function CheckQuorum(quorum: seq<u16>, n: u16, t: u16): Result<(), FrostError> {
    if |quorum| < t then Err(QuorumTooSmall)
    else if forall i :: 0 <= i < |quorum| ==> 0 < quorum[i] <= n && quorum[i] !in quorum[..i] then Ok(())
    else Err(BadQuorum)
  }

  method QuorumCheck(quorum: seq<u16>, n: u16, t: u16) returns (r: Result<(), FrostError>)
    ensures r == CheckQuorum(quorum, n, t)
  {
    if |quorum| < t { return Err(QuorumTooSmall); }
    for i := 0 to |quorum|
      invariant forall k :: 0 <= k < i ==> 0 < quorum[k] <= n && quorum[k] !in quorum[..k]
    {
      if quorum[i] == 0 || quorum[i] > n || quorum[i] in quorum[..i] {
        return Err(BadQuorum);
      }
    }
    r := Ok(());
  }

  // ------------------------------------------------------------------ nonce session

  function NonceTerm(h: Hashes, ts: Timestamp, digit: nat, quorum: seq<u16>, des: seq<DigitCommit>,
                     k: nat): Option<PublicKey>
    requires |quorum| == |des| && k < |quorum|
  {
    var rho := h.bindingFactor(quorum[k], ts, digit, quorum, des);
    var bound :- TweakPoint(des[k].1, rho);
    Combine(des[k].0, bound)
  }

  /** The aggregate nonce over the first `k` signers. */
  function NoncePrefix(h: Hashes, ts: Timestamp, digit: nat, quorum: seq<u16>, des: seq<DigitCommit>,
                       k: nat): Option<Option<PublicKey>>
    requires |quorum| == |des| && k <= |quorum|
  {
    if k == 0 then Some(None) else
    var acc :- NoncePrefix(h, ts, digit, quorum, des, k - 1);
    var term :- NonceTerm(h, ts, digit, quorum, des, k - 1);
    var acc' :- CombineInto(acc, term);
    Some(Some(acc'))
  }

  function BindingFactors(h: Hashes, ts: Timestamp, digit: nat, quorum: seq<u16>,
                          des: seq<DigitCommit>): (rhos: seq<SecretKey>)
    ensures |rhos| == |quorum|
  {
    seq<SecretKey>(|quorum|, k requires 0 <= k < |quorum| => h.bindingFactor(quorum[k], ts, digit, quorum, des))
  }

  function NonceSession(h: Hashes, ts: Timestamp, digit: nat, quorum: seq<u16>,
                        des: seq<DigitCommit>): Option<(PublicKey, seq<SecretKey>)>
    requires |quorum| == |des|
  {
    var acc :- NoncePrefix(h, ts, digit, quorum, des, |quorum|);
    var r :- acc;
    Some((r, BindingFactors(h, ts, digit, quorum, des)))
  }

  lemma {:induction false} NoncePrefixFails(h: Hashes, ts: Timestamp, digit: nat, quorum: seq<u16>,
                                            des: seq<DigitCommit>, k: nat, n: nat)
    requires |quorum| == |des| && k <= n <= |quorum|
    requires NoncePrefix(h, ts, digit, quorum, des, k).None?
    ensures NoncePrefix(h, ts, digit, quorum, des, n).None?
  {
    hide NonceTerm, Combine, Cong;
    if k < n { NoncePrefixFails(h, ts, digit, quorum, des, k, n - 1); }
  }

  method ComputeNonceSession(h: Hashes, ts: Timestamp, digit: nat, quorum: seq<u16>, des: seq<DigitCommit>)
      returns (r: Option<(PublicKey, seq<SecretKey>)>)
    requires |quorum| == |des|
    ensures r == NonceSession(h, ts, digit, quorum, des)
  {
    hide TweakPoint, Combine, Cong;
    var acc: Option<PublicKey>, rhos: seq<SecretKey> := None, [];
    for k := 0 to |quorum|
      invariant |rhos| == k && rhos == BindingFactors(h, ts, digit, quorum, des)[..k]
      invariant NoncePrefix(h, ts, digit, quorum, des, k) == Some(acc)
    {
      var rho := h.bindingFactor(quorum[k], ts, digit, quorum, des);
      var bound := TweakPoint(des[k].1, rho);
      if bound.None? { NoncePrefixFails(h, ts, digit, quorum, des, k + 1, |quorum|); return None; }
      var term := Combine(des[k].0, bound.value);
      if term.None? { NoncePrefixFails(h, ts, digit, quorum, des, k + 1, |quorum|); return None; }
      acc := CombineInto(acc, term.value);
      if acc.None? { NoncePrefixFails(h, ts, digit, quorum, des, k + 1, |quorum|); return None; }
      rhos := rhos + [rho];
    }
    if acc.None? { return None; }
    assert rhos == BindingFactors(h, ts, digit, quorum, des);
    r := Some((acc.value, rhos));
  }

  // ------------------------------------------------------------------------- DKG

  datatype Round1Package = Round1Package(index: u16, commitment: seq<PublicKey>, pok: Signature)
  datatype Round2Share = Round2Share(from: u16, to: Index, share: Bytes32)
  datatype KeyShare = KeyShare(index: Index, n: u16, t: u16, x: Bytes32, groupPubkey: XOnlyKey, pkOdd: bool)
  datatype Dealer = Dealer(index: Index, seed: Seed, poly: seq<SecretKey>, commitment: seq<PublicKey>, pok: Signature)

  function CoefficientsOf(h: Hashes, seed: Seed, t: nat): (cs: seq<SecretKey>)
    ensures |cs| == t
  {
    seq<SecretKey>(t, k requires 0 <= k < t => h.coefficient(seed, k))
  }

  function PointsOf(ks: seq<SecretKey>): (ps: seq<PublicKey>)
    ensures |ps| == |ks|
  {
    seq<PublicKey>(|ks|, k requires 0 <= k < |ks| => PublicOf(ks[k]))
  }

  function NewDealer(h: Hashes, index: u16, n: u16, t: u16, localSeed: Seed): Result<Dealer, FrostError> {
    if t == 0 || n == 0 || t > n || index == 0 || index > n then Err(BadParams) else
    var seed := h.participantSeed(localSeed, index);
    var poly := CoefficientsOf(h, seed, t);
    var commitment := PointsOf(poly);
    var pok :- Lift(SignWithNonce(h.env, poly[0], h.pokNonce(seed), h.pokMessage(index, commitment[0])));
    Ok(Dealer(index, seed, poly, commitment, pok))
  }

  function Round1(d: Dealer): Round1Package {
    Round1Package(d.index, d.commitment, d.pok)
  }

  function Round2(d: Dealer, to: Index): Result<Round2Share, FrostError>
    requires |d.poly| > 0
  {
    var share :- Lift(Horner(d.poly, to));
    Ok(Round2Share(d.index, to, share))
  }

  predicate VerifyRound1(h: Hashes, pkg: Round1Package) {
    && |pkg.commitment| > 0
    && Verify(h.env, XOf(pkg.commitment[0]), h.pokMessage(pkg.index, pkg.commitment[0]), pkg.pok)
  }

  predicate VerifyRound2Share(share: Round2Share, commitment: seq<PublicKey>) {
    && FromBytes(share.share).Some?
    && CommitmentAt(commitment, share.to) == Some(PublicOf(share.share))
  }

  function FindPackage(round1: seq<Round1Package>, index: nat): (r: Option<Round1Package>)
    ensures r.Some? ==> r.value in round1 && r.value.index == index
  {
    if |round1| == 0 then None
    else if round1[0].index == index then Some(round1[0])
    else FindPackage(round1[1..], index)
  }

  function FindShare(shares: seq<Round2Share>, from: nat, to: nat): (r: Option<Round2Share>)
    ensures r.Some? ==> r.value in shares && r.value.from == from && r.value.to == to
  {
    if |shares| == 0 then None
    else if shares[0].from == from && shares[0].to == to then Some(shares[0])
    else FindShare(shares[1..], from, to)
  }

  /** The sums over dealers 1..=k, checking every message on the way. */
  function FinalizePrefix(h: Hashes, index: Index, round1: seq<Round1Package>, shares: seq<Round2Share>, k: nat):
    Result<(Option<SecretKey>, Option<PublicKey>), FrostError>
  {
    if k == 0 then Ok((None, None)) else
    var (x, pk) :- FinalizePrefix(h, index, round1, shares, k - 1);
    var pkg := FindPackage(round1, k);
    if pkg.None? then Err(MissingMessage) else
    if !VerifyRound1(h, pkg.value) then Err(BadPok) else
    var share := FindShare(shares, k, index);
    if share.None? then Err(MissingMessage) else
    if !VerifyRound2Share(share.value, pkg.value.commitment) then Err(BadShare) else
    var x' :- Lift(AddInto(x, share.value.share));
    var pk' :- Lift(CombineInto(pk, pkg.value.commitment[0]));
    Ok((Some(x'), Some(pk')))
  }

  function FinalizeKey(h: Hashes, index: Index, n: u16, t: u16, round1: seq<Round1Package>,
                       shares: seq<Round2Share>): Result<KeyShare, FrostError> {
    if |round1| != n then Err(MissingMessage) else
    var (x, pk) :- FinalizePrefix(h, index, round1, shares, n);
    if pk.None? || x.None? then Err(BadParams) else
    Ok(KeyShare(index, n, t, x.value, XOf(pk.value), IsOdd(h.env, pk.value)))
  }

  lemma {:induction false} FinalizePrefixFails(h: Hashes, index: Index, round1: seq<Round1Package>,
                                               shares: seq<Round2Share>, k: nat, n: nat)
    requires k <= n && FinalizePrefix(h, index, round1, shares, k).Err?
    ensures FinalizePrefix(h, index, round1, shares, n).Err?
    ensures FinalizePrefix(h, index, round1, shares, n).error == FinalizePrefix(h, index, round1, shares, k).error
  {
    hide AddTweak, Combine, Verify, VerifyRound1, VerifyRound2Share, FindShare, FindPackage, Cong;
    if k < n { FinalizePrefixFails(h, index, round1, shares, k, n - 1); }
  }

  method ComputeFinalKey(h: Hashes, index: Index, n: u16, t: u16, round1: seq<Round1Package>, shares: seq<Round2Share>)
      returns (r: Result<KeyShare, FrostError>)
    ensures r == FinalizeKey(h, index, n, t, round1, shares)
  {
    hide AddTweak, Combine, Verify, CommitmentAt, Cong, XOf, IsOdd;
    if |round1| != n { return Err(MissingMessage); }
    var x: Option<SecretKey>, pk: Option<PublicKey> := None, None;
    for k := 1 to n as int + 1
      invariant FinalizePrefix(h, index, round1, shares, k - 1) == Ok((x, pk))
    {
      var pkg := FindPackage(round1, k);
      if pkg.None? { FinalizePrefixFails(h, index, round1, shares, k, n); return Err(MissingMessage); }
      if !VerifyRound1(h, pkg.value) { FinalizePrefixFails(h, index, round1, shares, k, n); return Err(BadPok); }
      var share := FindShare(shares, k, index);
      if share.None? { FinalizePrefixFails(h, index, round1, shares, k, n); return Err(MissingMessage); }
      if !VerifyRound2Share(share.value, pkg.value.commitment) {
        FinalizePrefixFails(h, index, round1, shares, k, n);
        return Err(BadShare);
      }
      x := AddInto(x, share.value.share);
      if x.None? { FinalizePrefixFails(h, index, round1, shares, k, n); return Err(Crypto); }
      pk := CombineInto(pk, pkg.value.commitment[0]);
      if pk.None? { FinalizePrefixFails(h, index, round1, shares, k, n); return Err(Crypto); }
    }
    if pk.None? || x.None? { return Err(BadParams); }
    r := Ok(KeyShare(index, n, t, x.value, XOf(pk.value), IsOdd(h.env, pk.value)));
  }

  // --------------------------------------------------------------------- signing

  datatype NonceCommitment = NonceCommitment(index: u16, digits: seq<DigitCommit>)
  datatype SigShare = SigShare(index: u16, digits: seq<Bytes32>)
  datatype Signer = Signer(key: KeyShare, nonceSeed: Seed)

  datatype Announcement = Announcement(event: Timestamp, noncePoints: seq<XBytes>)
  datatype Attestation = Attestation(event: Timestamp, price: nat, signatures: seq<Signature>)

  function CommitNonces(h: Hashes, s: Signer, ts: Timestamp): NonceCommitment {
    NonceCommitment(s.key.index, seq<DigitCommit>(NB_DIGITS, i requires 0 <= i < NB_DIGITS =>
      (PublicOf(h.hidingNonce(s.nonceSeed, ts, i)), PublicOf(h.bindingNonce(s.nonceSeed, ts, i)))))
  }

  function FindCommitment(cs: seq<NonceCommitment>, index: nat): (r: Option<NonceCommitment>)
    ensures r.Some? ==> r.value in cs && r.value.index == index
  {
    if |cs| == 0 then None
    else if cs[0].index == index then Some(cs[0])
    else FindCommitment(cs[1..], index)
  }

  function FindSigShare(ss: seq<SigShare>, index: nat): (r: Option<SigShare>)
    ensures r.Some? ==> r.value in ss && r.value.index == index
  {
    if |ss| == 0 then None
    else if ss[0].index == index then Some(ss[0])
    else FindSigShare(ss[1..], index)
  }

  /** The quorum's commitments for one digit, in quorum order. */
  function QuorumCommitments(quorum: seq<u16>, cs: seq<NonceCommitment>,
                             digit: nat): (r: Result<seq<DigitCommit>, FrostError>)
    ensures r.Ok? ==> |r.value| == |quorum|
  {
    if |quorum| == 0 then Ok([]) else
    var c := FindCommitment(cs, quorum[0]);
    if c.None? || digit >= |c.value.digits| then Err(MissingMessage) else
    var rest :- QuorumCommitments(quorum[1..], cs, digit);
    Ok([c.value.digits[digit]] + rest)
  }

  function Position(quorum: seq<u16>, j: u16): (r: Option<nat>)
    ensures r.Some? ==> r.value < |quorum| && quorum[r.value] == j
    ensures r.None? ==> j !in quorum
  {
    if |quorum| == 0 then None
    else if quorum[0] == j then Some(0)
    else
      var p :- Position(quorum[1..], j);
      Some(p + 1)
  }

  function NegateIf(odd: bool, a: SecretKey): SecretKey {
    if odd then Negate(a) else a
  }

  /** The partial signature on one digit. */
  function ShareDigit(h: Hashes, s: Signer, ts: Timestamp, quorum: seq<u16>, cs: seq<NonceCommitment>,
                      pos: nat, coeff: SecretKey, x: SecretKey, i: nat, d: Digit): Result<SecretKey, FrostError>
    requires pos < |quorum|
  {
    var des :- QuorumCommitments(quorum, cs, i);
    var (r, rhos) :- Lift(NonceSession(h, ts, i, quorum, des));
    var e := Challenge(h.env, XOf(r), s.key.groupPubkey, h.digitMsg(d));
    var bound :- Lift(MulTweak(h.bindingNonce(s.nonceSeed, ts, i), rhos[pos]));
    var eff :- Lift(AddTweak(h.hidingNonce(s.nonceSeed, ts, i), bound));
    var lx :- Lift(MulTweak(coeff, x));
    var part :- Lift(MulTweak(lx, e));
    Lift(AddTweak(NegateIf(IsOdd(h.env, r), eff), NegateIf(s.key.pkOdd, part)))
  }

  /** The partial signatures on the first `k` digits. */
  function SharePrefix(h: Hashes, s: Signer, ts: Timestamp, quorum: seq<u16>, cs: seq<NonceCommitment>,
                       pos: nat, coeff: SecretKey, x: SecretKey, ds: seq<Digit>, k: nat):
      (r: Result<seq<Bytes32>, FrostError>)
    requires pos < |quorum| && k <= |ds|
    ensures r.Ok? ==> |r.value| == k
  {
    if k == 0 then Ok([]) else
    var before :- SharePrefix(h, s, ts, quorum, cs, pos, coeff, x, ds, k - 1);
    var z :- ShareDigit(h, s, ts, quorum, cs, pos, coeff, x, k - 1, ds[k - 1]);
    Ok(before + [z])
  }

  ghost function ShareOf(h: Hashes, s: Signer, ts: Timestamp, price: nat, quorum: seq<u16>,
                         cs: seq<NonceCommitment>): Result<SigShare, FrostError>
    requires IsPrime(N)
  {
    var _ :- CheckQuorum(quorum, s.key.n, s.key.t);
    var q: seq<Index> := quorum;
    var pos := Position(q, s.key.index);
    if pos.None? then Err(BadQuorum) else
    var coeff :- LambdaFor(s.key.index, q);
    var x := FromBytes(s.key.x);
    if x.None? then Err(BadParams) else
    var zs :- SharePrefix(h, s, ts, q, cs, pos.value, coeff, x.value, Digits(price), NB_DIGITS);
    Ok(SigShare(s.key.index, zs))
  }

  lemma {:induction false} SharePrefixFails(h: Hashes, s: Signer, ts: Timestamp, quorum: seq<u16>,
                                            cs: seq<NonceCommitment>,
                                            pos: nat, coeff: SecretKey, x: SecretKey, ds: seq<Digit>, k: nat, n: nat)
    requires pos < |quorum| && k <= n <= |ds|
    requires SharePrefix(h, s, ts, quorum, cs, pos, coeff, x, ds, k).Err?
    ensures SharePrefix(h, s, ts, quorum, cs, pos, coeff, x, ds, n) ==
      SharePrefix(h, s, ts, quorum, cs, pos, coeff, x, ds, k)
  {
    hide ShareDigit;
    if k < n { SharePrefixFails(h, s, ts, quorum, cs, pos, coeff, x, ds, k, n - 1); }
  }

  method ComputeSigShare(h: Hashes, s: Signer, ts: Timestamp, price: nat, quorum: seq<u16>, cs: seq<NonceCommitment>)
      returns (r: Result<SigShare, FrostError>)
    ensures IsPrime(N) ==> r == ShareOf(h, s, ts, price, quorum, cs)
  {
    hide IsPrime, ShareDigit, LambdaFor, Digits, Pow;
    var checked := QuorumCheck(quorum, s.key.n, s.key.t);
    if checked.Err? { return Err(checked.error); }
    var q: seq<Index> := quorum;
    var pos := Position(q, s.key.index);
    if pos.None? { return Err(BadQuorum); }
    var coeff := LagrangeAtZero(s.key.index, q);
    if coeff.Err? { return Err(coeff.error); }
    var x := FromBytes(s.key.x);
    if x.None? { return Err(BadParams); }
    var ds, zs := Digits(price), [];
    for i := 0 to NB_DIGITS
      invariant SharePrefix(h, s, ts, q, cs, pos.value, coeff.value, x.value, ds, i) == Ok(zs)
    {
      var z := ShareDigit(h, s, ts, q, cs, pos.value, coeff.value, x.value, i, ds[i]);
      if z.Err? {
        SharePrefixFails(h, s, ts, q, cs, pos.value, coeff.value, x.value, ds, i + 1, NB_DIGITS);
        return Err(z.error);
      }
      zs := zs + [z.value];
    }
    r := Ok(SigShare(s.key.index, zs));
  }

  // ----------------------------------------------------------------- aggregation

  function NoncePoints(h: Hashes, ts: Timestamp, quorum: seq<u16>, cs: seq<NonceCommitment>,
                       k: nat): (r: Result<seq<XBytes>, FrostError>)
    ensures r.Ok? ==> |r.value| == k
  {
    if k == 0 then Ok([]) else
    var before :- NoncePoints(h, ts, quorum, cs, k - 1);
    var des :- QuorumCommitments(quorum, cs, k - 1);
    var (r, _) :- Lift(NonceSession(h, ts, k - 1, quorum, des));
    Ok(before + [OnCurve(XOf(r))])
  }

  function AggregateAnnouncement(h: Hashes, ts: Timestamp, quorum: seq<u16>,
                                 cs: seq<NonceCommitment>): Result<Announcement, FrostError> {
    var points :- NoncePoints(h, ts, quorum, cs, NB_DIGITS);
    Ok(Announcement(ts, points))
  }

  /** The sum of the first `k` signers' partial signatures on digit `i`. */
  function SumShares(quorum: seq<u16>, shares: seq<SigShare>, i: nat, k: nat): Result<Option<SecretKey>, FrostError>
    requires k <= |quorum|
  {
    if k == 0 then Ok(None) else
    var acc :- SumShares(quorum, shares, i, k - 1);
    var share := FindSigShare(shares, quorum[k - 1]);
    if share.None? || i >= |share.value.digits| then Err(MissingMessage) else
    var z := FromBytes(share.value.digits[i]);
    if z.None? then Err(BadShare) else
    var acc' :- Lift(AddInto(acc, z.value));
    Ok(Some(acc'))
  }

  function AggregateDigit(h: Hashes, ts: Timestamp, quorum: seq<u16>, cs: seq<NonceCommitment>, shares: seq<SigShare>,
                          i: nat): Result<Signature, FrostError> {
    var des :- QuorumCommitments(quorum, cs, i);
    var (r, _) :- Lift(NonceSession(h, ts, i, quorum, des));
    var sum :- SumShares(quorum, shares, i, |quorum|);
    if sum.None? then Err(QuorumTooSmall) else
    Ok(Signature(OnCurve(XOf(r)), sum.value))
  }

  function AggregatePrefix(h: Hashes, ts: Timestamp, quorum: seq<u16>, cs: seq<NonceCommitment>, shares: seq<SigShare>,
                           k: nat): (r: Result<seq<Signature>, FrostError>)
    ensures r.Ok? ==> |r.value| == k
  {
    if k == 0 then Ok([]) else
    var before :- AggregatePrefix(h, ts, quorum, cs, shares, k - 1);
    var sig :- AggregateDigit(h, ts, quorum, cs, shares, k - 1);
    Ok(before + [sig])
  }

  function AggregateAttestation(h: Hashes, ts: Timestamp, price: nat, quorum: seq<u16>, cs: seq<NonceCommitment>,
                                shares: seq<SigShare>): Result<Attestation, FrostError> {
    var sigs :- AggregatePrefix(h, ts, quorum, cs, shares, NB_DIGITS);
    Ok(Attestation(ts, price, sigs))
  }

  lemma {:induction false} SumSharesFails(quorum: seq<u16>, shares: seq<SigShare>, i: nat, k: nat, n: nat)
    requires k <= n <= |quorum| && SumShares(quorum, shares, i, k).Err?
    ensures SumShares(quorum, shares, i, n) == SumShares(quorum, shares, i, k)
  {
    hide FindSigShare, AddInto, Cong;
    if k < n { SumSharesFails(quorum, shares, i, k, n - 1); }
  }

  lemma {:induction false} AggregatePrefixFails(h: Hashes, ts: Timestamp, quorum: seq<u16>, cs: seq<NonceCommitment>,
                                                shares: seq<SigShare>, k: nat, n: nat)
    requires k <= n && AggregatePrefix(h, ts, quorum, cs, shares, k).Err?
    ensures AggregatePrefix(h, ts, quorum, cs, shares, n) == AggregatePrefix(h, ts, quorum, cs, shares, k)
  {
    hide AggregateDigit;
    if k < n { AggregatePrefixFails(h, ts, quorum, cs, shares, k, n - 1); }
  }

  lemma {:induction false} NoncePointsFails(h: Hashes, ts: Timestamp, quorum: seq<u16>, cs: seq<NonceCommitment>,
                                            k: nat, n: nat)
    requires k <= n && NoncePoints(h, ts, quorum, cs, k).Err?
    ensures NoncePoints(h, ts, quorum, cs, n) == NoncePoints(h, ts, quorum, cs, k)
  {
    hide QuorumCommitments, NonceSession, XOf;
    if k < n { NoncePointsFails(h, ts, quorum, cs, k, n - 1); }
  }

  method ComputeAnnouncement(h: Hashes, ts: Timestamp, quorum: seq<u16>, cs: seq<NonceCommitment>)
      returns (r: Result<Announcement, FrostError>)
    ensures r == AggregateAnnouncement(h, ts, quorum, cs)
  {
    hide QuorumCommitments, NonceSession, XOf;
    var points := [];
    for i := 0 to NB_DIGITS
      invariant NoncePoints(h, ts, quorum, cs, i) == Ok(points)
    {
      var des := QuorumCommitments(quorum, cs, i);
      if des.Err? { NoncePointsFails(h, ts, quorum, cs, i + 1, NB_DIGITS); return Err(des.error); }
      var session := ComputeNonceSession(h, ts, i, quorum, des.value);
      if session.None? { NoncePointsFails(h, ts, quorum, cs, i + 1, NB_DIGITS); return Err(Crypto); }
      points := points + [OnCurve(XOf(session.value.0))];
    }
    r := Ok(Announcement(ts, points));
  }

  method ComputeAttestation(h: Hashes, ts: Timestamp, price: nat, quorum: seq<u16>, cs: seq<NonceCommitment>,
                            shares: seq<SigShare>) returns (r: Result<Attestation, FrostError>)
    ensures r == AggregateAttestation(h, ts, price, quorum, cs, shares)
  {
    hide QuorumCommitments, NonceSession, XOf, FindSigShare, AddTweak, Cong;
    var sigs := [];
    for i := 0 to NB_DIGITS
      invariant AggregatePrefix(h, ts, quorum, cs, shares, i) == Ok(sigs)
    {
      var des := QuorumCommitments(quorum, cs, i);
      if des.Err? { AggregatePrefixFails(h, ts, quorum, cs, shares, i + 1, NB_DIGITS); return Err(des.error); }
      var session := ComputeNonceSession(h, ts, i, quorum, des.value);
      if session.None? { AggregatePrefixFails(h, ts, quorum, cs, shares, i + 1, NB_DIGITS); return Err(Crypto); }
      var s: Option<SecretKey> := None;
      for k := 0 to |quorum|
        invariant SumShares(quorum, shares, i, k) == Ok(s)
      {
        var share := FindSigShare(shares, quorum[k]);
        if share.None? || i >= |share.value.digits| {
          SumSharesFails(quorum, shares, i, k + 1, |quorum|);
          AggregatePrefixFails(h, ts, quorum, cs, shares, i + 1, NB_DIGITS);
          return Err(MissingMessage);
        }
        var z := FromBytes(share.value.digits[i]);
        if z.None? {
          SumSharesFails(quorum, shares, i, k + 1, |quorum|);
          AggregatePrefixFails(h, ts, quorum, cs, shares, i + 1, NB_DIGITS);
          return Err(BadShare);
        }
        s := AddInto(s, z.value);
        if s.None? {
          SumSharesFails(quorum, shares, i, k + 1, |quorum|);
          AggregatePrefixFails(h, ts, quorum, cs, shares, i + 1, NB_DIGITS);
          return Err(Crypto);
        }
      }
      if s.None? { AggregatePrefixFails(h, ts, quorum, cs, shares, i + 1, NB_DIGITS); return Err(QuorumTooSmall); }
      sigs := sigs + [Signature(OnCurve(XOf(session.value.0)), s.value)];
    }
    r := Ok(Attestation(ts, price, sigs));
  }
}
