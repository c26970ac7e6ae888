/** What the dealers of a key generation draw, and what a participant checks before it takes
    a key from them. */
module FrostDealers {
  import opened Options
  import opened Modular
  import opened Secp
  import opened Schnorr
  import opened Lagrange
  import opened Frost
  import opened FrostKeygen
  import opened FrostCohort

  /** Coefficient `k` of dealer `index`, from the seed that they all start from. */
  function Drawn(h: Hashes, localSeed: Seed, index: Index, k: nat): SecretKey {
    h.coefficient(h.participantSeed(localSeed, index), k)
  }

  /** The dealer's polynomial is drawn coefficient by coefficient, its commitment is that
      polynomial in the exponent, and its proof of knowledge is a signature under the
      constant term, on its own index, with its own nonce. */
  lemma DealerDraws(h: Hashes, index: u16, n: u16, t: u16, localSeed: Seed)
    requires NewDealer(h, index, n, t, localSeed).Ok?
    ensures 1 <= t <= n && 1 <= index <= n
    ensures var d := NewDealer(h, index, n, t, localSeed).value;
      && d.index == index && d.seed == h.participantSeed(localSeed, index)
      && |d.poly| == |d.commitment| == t
      && (forall k :: 0 <= k < t ==>
           d.poly[k] == h.coefficient(d.seed, k) == Drawn(h, localSeed, index, k)
             && d.commitment[k] == PublicOf(d.poly[k]))
      && d.pok.r.OnCurve? && NoncePoint(h.pokNonce(d.seed)) == Some(d.pok.r.key)
      && Verify(h.env, XOf(d.commitment[0]), h.pokMessage(index, d.commitment[0]), d.pok)
  {
    var d := NewDealer(h, index, n, t, localSeed).value;
    hide SignWithNonce, Verify, XOf, NoncePoint;
    SignedVerifies(h.env, d.poly[0], h.pokNonce(d.seed), h.pokMessage(index, d.commitment[0]));
    VerifiedOnCurve(h.env, XOf(d.commitment[0]), h.pokMessage(index, d.commitment[0]), d.pok);
  }

  /** A dealer is refused exactly for sizes or an index out of range, or when its proof of
      knowledge cannot be signed. */
  lemma DealerIff(h: Hashes, index: u16, n: u16, t: u16, localSeed: Seed)
    ensures !(1 <= t <= n && 1 <= index <= n) ==> NewDealer(h, index, n, t, localSeed) == Err(BadParams)
    ensures 1 <= t <= n && 1 <= index <= n ==>
      var seed := h.participantSeed(localSeed, index);
      var a0 := Drawn(h, localSeed, index, 0);
      (NewDealer(h, index, n, t, localSeed).Ok? <==>
        SignWithNonce(h.env, a0, h.pokNonce(seed), h.pokMessage(index, PublicOf(a0))).Some?)
  {
    hide SignWithNonce;
  }

  // --------------------------------------------------------------- the whole cohort

  /** The sum of what the dealers 1..=n drew for coefficient `k`. */
  function DrawnSum(h: Hashes, localSeed: Seed, n: u16, k: nat): nat {
    if n == 0 then 0 else DrawnSum(h, localSeed, n - 1, k) + Drawn(h, localSeed, n, k)
  }

  lemma {:induction false} PolyAddAt(a: seq<int>, b: seq<int>, k: nat)
    requires |a| == |b| && k < |a|
    ensures PolyAdd(a, b)[k] == a[k] + b[k]
  {
    if k > 0 { PolyAddAt(a[1..], b[1..], k - 1); }
  }

  lemma {:induction false} FindBroadcast(round1: seq<Round1Package>, i: nat)
    requires i < |round1|
    requires forall j, m :: 0 <= j < m < |round1| ==> round1[j].index != round1[m].index
    ensures FindPackage(round1, round1[i].index) == Some(round1[i])
  {
    if i > 0 { FindBroadcast(round1[1..], i - 1); }
  }

  /** Broadcast `i` is what dealer `i + 1` sends. */
  predicate Sent(h: Hashes, n: u16, t: u16, localSeed: Seed, round1: seq<Round1Package>, i: nat)
    requires i < |round1| == n
  {
    var d := NewDealer(h, i + 1, n, t, localSeed);
    d.Ok? && round1[i] == Round1(d.value)
  }

  lemma SentIs(h: Hashes, n: u16, t: u16, localSeed: Seed, round1: seq<Round1Package>, i: nat)
    requires i < |round1| == n && Sent(h, n, t, localSeed, round1, i)
    ensures 1 <= t <= n && round1[i].index == i + 1 && |round1[i].commitment| == t
    ensures forall k :: 0 <= k < t ==> Logs(round1[i].commitment)[k] == Drawn(h, localSeed, i + 1, k)
  {
    hide NewDealer, Drawn;
    DealerDraws(h, i + 1, n, t, localSeed);
  }

  lemma {:induction false} GroupCoefficients(h: Hashes, n: u16, t: u16, localSeed: Seed, round1: seq<Round1Package>,
                                             k: u16)
    requires k <= n && |round1| == n
    requires forall i :: 0 <= i < n ==> Sent(h, n, t, localSeed, round1, i)
    ensures k > 0 ==> |GroupPoly(round1, k)| == t
    ensures k > 0 ==> forall m :: 0 <= m < t ==> GroupPoly(round1, k)[m] == DrawnSum(h, localSeed, k, m)
    decreases k
  {
    hide Sent, FindPackage, PolyAdd, Drawn;
    if k > 0 {
      GroupCoefficients(h, n, t, localSeed, round1, k - 1);
      forall i | 0 <= i < n
        ensures round1[i].index == i + 1
      {
        SentIs(h, n, t, localSeed, round1, i);
      }
      SentIs(h, n, t, localSeed, round1, k - 1);
      FindBroadcast(round1, k - 1);
      var mine := Logs(round1[k - 1].commitment);
      var before := GroupPoly(round1, k - 1);
      if k == 1 {
        FirstSum(mine);
      } else {
        forall m | 0 <= m < t
          ensures PolyAdd(before, mine)[m] == before[m] + mine[m]
        {
          PolyAddAt(before, mine, m);
        }
      }
    }
  }

  lemma FirstSum(b: seq<int>)
    ensures PolyAdd([], b) == b
  {
  }

  /** Signer `j` holds its own nonce seed and its own point of the polynomial. */
  ghost predicate Holds(h: Hashes, n: u16, t: u16, localSeed: Seed, poly: seq<int>, j: nat, s: Signer) {
    && j + 1 < 0x1_0000 && s.nonceSeed == h.participantSeed(localSeed, j + 1)
    && s.key.index == j + 1 && s.key.n == n && s.key.t == t
    && Cong(N, s.key.x, PolyVal(poly, j + 1))
  }

  /** What key generation establishes, down to the seeds: coefficient `k` of the polynomial
      that the cohort shares is the sum of what its dealers drew for it, the group key is
      that of its constant term, and every signer holds its own seed and point. */
  lemma KeygenDraws(h: Hashes, n: u16, t: u16, localSeed: Seed)
    requires Keygen(h, n, t, localSeed).Ok?
    ensures 1 <= t <= n && Dealers(h, n, t, localSeed, n).Ok?
    ensures var poly := CohortPoly(h, n, t, localSeed);
      |poly| == t && forall k :: 0 <= k < t ==> poly[k] == DrawnSum(h, localSeed, n, k)
    ensures var c := Keygen(h, n, t, localSeed).value;
      && |c.signers| == n
      && (exists odd :: GroupKey(h, c.groupPubkey, odd, [DrawnSum(h, localSeed, n, 0)]))
      && forall j :: 0 <= j < n ==> Holds(h, n, t, localSeed, CohortPoly(h, n, t, localSeed), j, c.signers[j])
  {
    hide *;
    KeygenKeys(h, n, t, localSeed);
    var dealers := Dealers(h, n, t, localSeed, n).value;
    var c, poly := Keygen(h, n, t, localSeed).value, CohortPoly(h, n, t, localSeed);
    DealersAre(h, n, t, localSeed, n);
    KeygenParts(h, n, t, localSeed);
    forall i | 0 <= i < n
      ensures Sent(h, n, t, localSeed, Broadcasts(dealers), i)
    {
      BroadcastSent(h, n, t, localSeed, dealers, i);
    }
    GroupCoefficients(h, n, t, localSeed, Broadcasts(dealers), n);
    SentIs(h, n, t, localSeed, Broadcasts(dealers), 0);
    forall j | 0 <= j < n
      ensures Holds(h, n, t, localSeed, poly, j, c.signers[j])
    {
      SignersAt(h, n, t, dealers, n, j);
      SignerHolds(h, n, t, localSeed, dealers, j);
    }
    var odd := KeyedGroup(h, c, poly);
    SameConstant(h, c.groupPubkey, odd, poly);
  }

  lemma KeygenParts(h: Hashes, n: u16, t: u16, localSeed: Seed)
    requires Keygen(h, n, t, localSeed).Ok? && Dealers(h, n, t, localSeed, n).Ok?
    requires Dealt(Dealers(h, n, t, localSeed, n).value)
    ensures var dealers := Dealers(h, n, t, localSeed, n).value;
      && Signers(h, n, t, dealers, n) == Ok(Keygen(h, n, t, localSeed).value.signers)
      && CohortPoly(h, n, t, localSeed) == GroupPoly(Broadcasts(dealers), n)
  {
    hide Dealers, Signers, Dealt, GroupPoly;
  }

  lemma KeyedGroup(h: Hashes, c: Cohort, poly: seq<int>) returns (odd: bool)
    requires Keyed(h, c, poly)
    ensures GroupKey(h, c.groupPubkey, odd, poly) && |c.signers| == c.n
  {
    hide GroupKey, SignerKeyed;
    odd :| GroupKey(h, c.groupPubkey, odd, poly) && forall k :: 0 <= k < |c.signers| ==> SignerKeyed(c, poly, odd, k);
  }

  lemma BroadcastSent(h: Hashes, n: u16, t: u16, localSeed: Seed, dealers: seq<Dealer>, i: nat)
    requires i < |dealers| == n && NewDealer(h, i + 1, n, t, localSeed) == Ok(dealers[i])
    ensures Sent(h, n, t, localSeed, Broadcasts(dealers), i)
  {
    hide NewDealer;
  }

  lemma SignerHolds(h: Hashes, n: u16, t: u16, localSeed: Seed, dealers: seq<Dealer>, j: nat)
    requires j < |dealers| == n && Dealt(dealers) && FinalizedSigner(h, n, t, dealers, j).Ok?
    requires NewDealer(h, j + 1, n, t, localSeed) == Ok(dealers[j])
    ensures Holds(h, n, t, localSeed, GroupPoly(Broadcasts(dealers), n), j, FinalizedSigner(h, n, t, dealers, j).value)
  {
    hide *;
    DealerDraws(h, j + 1, n, t, localSeed);
    SignerFinalized(h, n, t, dealers, j);
    SignerSeed(h, n, t, dealers, j);
    HoldsIs(h, n, t, localSeed, GroupPoly(Broadcasts(dealers), n), j, FinalizedSigner(h, n, t, dealers, j).value);
  }

  lemma HoldsIs(h: Hashes, n: u16, t: u16, localSeed: Seed, poly: seq<int>, j: nat, s: Signer)
    requires j + 1 < 0x1_0000 && s.nonceSeed == h.participantSeed(localSeed, j + 1)
    requires s.key.index == j + 1 && s.key.n == n && s.key.t == t
    requires Cong(N, s.key.x, PolyVal(poly, j + 1))
    ensures Holds(h, n, t, localSeed, poly, j, s)
  {
    hide Cong, PolyVal;
  }

  lemma SignerSeed(h: Hashes, n: u16, t: u16, dealers: seq<Dealer>, k: nat)
    requires k < |dealers| && Dealt(dealers) && FinalizedSigner(h, n, t, dealers, k).Ok?
    ensures FinalizedSigner(h, n, t, dealers, k).value.nonceSeed == dealers[k].seed
  {
    hide Dealt, SharesTo, FinalizeKey;
  }

  lemma SameConstant(h: Hashes, px: XOnlyKey, odd: bool, poly: seq<int>)
    requires |poly| > 0 && GroupKey(h, px, odd, poly)
    ensures GroupKey(h, px, odd, [poly[0]])
  {
    hide Cong, XOf, IsOdd;
    assert PolyVal(poly, 0) == poly[0] == PolyVal([poly[0]], 0);
  }

  // ------------------------------------------------------- what a participant checks

  /** A lookup finds a message exactly when there is one. */
  lemma {:induction false} PackageIff(round1: seq<Round1Package>, index: nat)
    ensures FindPackage(round1, index).Some? <==> exists pkg :: pkg in round1 && pkg.index == index
  {
    if |round1| > 0 {
      PackageIff(round1[1..], index);
      assert round1 == [round1[0]] + round1[1..];
    }
  }

  lemma {:induction false} ShareIff(shares: seq<Round2Share>, from: nat, to: nat)
    ensures FindShare(shares, from, to).Some? <==> exists s :: s in shares && s.from == from && s.to == to
  {
    if |shares| > 0 {
      ShareIff(shares[1..], from, to);
      assert shares == [shares[0]] + shares[1..];
    }
  }

  /** Dealer `j`'s broadcast proves knowledge of its constant term on its own index, and its
      share is the committed polynomial at the participant. */
  ghost predicate Delivered(h: Hashes, index: Index, round1: seq<Round1Package>, shares: seq<Round2Share>, j: nat) {
    var pkg, share := FindPackage(round1, j), FindShare(shares, j, index);
    && pkg.Some? && share.Some? && |pkg.value.commitment| > 0
    && var cs := pkg.value.commitment;
    && Verify(h.env, XOf(cs[0]), h.pokMessage(j, cs[0]), pkg.value.pok)
    && 0 < share.value.share < N && Cong(N, share.value.share, PolyVal(Logs(cs), index))
    && !SomePrefixVanishes(Logs(cs), index)
  }

  /** Neither the key nor the group point vanishes after dealer `j`. */
  ghost predicate Stays(round1: seq<Round1Package>, index: Index, j: nat) {
    && !Cong(N, PolyVal(GroupPoly(round1, j), index), 0)
    && !Cong(N, PolyVal(GroupPoly(round1, j), 0), 0)
  }

  lemma DeliveredIs(h: Hashes, index: Index, round1: seq<Round1Package>, shares: seq<Round2Share>, j: u16)
    requires IsPrime(N)
    ensures Delivered(h, index, round1, shares, j) <==>
      && FindPackage(round1, j).Some? && VerifyRound1(h, FindPackage(round1, j).value)
      && FindShare(shares, j, index).Some?
      && VerifyRound2Share(FindShare(shares, j, index).value, FindPackage(round1, j).value.commitment)
  {
    var pkg, share := FindPackage(round1, j), FindShare(shares, j, index);
    hide IsPrime, Verify, XOf, Cong, PolyVal, SomePrefixVanishes, Logs, FindPackage, FindShare, CommitmentAt;
    if pkg.Some? && share.Some? {
      ShareAcceptedExactly(share.value, pkg.value.commitment);
    }
  }

  lemma AddVanishes(acc: Option<SecretKey>, t: SecretKey, v: int, w: int)
    requires acc.Some? ==> Cong(N, acc.value, v)
    requires acc.None? ==> v == 0
    requires Cong(N, t, w)
    ensures AddInto(acc, t).None? <==> Cong(N, v + w, 0)
  {
    if AddInto(acc, t).Some? {
      AddedIs(acc, t, v);
      var r := AddInto(acc, t).value;
      hide *;
      Accumulate(r, v, t, w);
      if Cong(N, v + w, 0) {
        CongTrans(N, r, v + w, 0);
        NotZero(r);
      }
    } else {
      var a := acc.value;
      assert Cong(N, a + t, 0) by { hide Cong; }
      hide *;
      CongAdd(N, a, v, t, w);
      CongSym(N, a + t, v + w);
      CongTrans(N, v + w, a + t, 0);
    }
  }

  lemma CombineVanishes(acc: Option<PublicKey>, t: PublicKey, v: int)
    requires acc.Some? ==> Cong(N, acc.value.log, v)
    requires acc.None? ==> v == 0
    ensures CombineInto(acc, t).None? <==> Cong(N, v + t.log, 0)
  {
    hide AddTweak, Cong;
    CongRefl(N, t.log);
    AddVanishes(if acc.None? then None else Some(acc.value.log), t.log, v, t.log);
  }

  lemma FinalizeUnfold(h: Hashes, index: Index, round1: seq<Round1Package>, shares: seq<Round2Share>, k: u16)
    requires k > 0 && FinalizePrefix(h, index, round1, shares, k - 1).Ok?
    ensures var (x, pk) := FinalizePrefix(h, index, round1, shares, k - 1).value;
      var pkg, share := FindPackage(round1, k), FindShare(shares, k, index);
      FinalizePrefix(h, index, round1, shares, k).Ok? <==>
        && pkg.Some? && VerifyRound1(h, pkg.value) && share.Some?
        && VerifyRound2Share(share.value, pkg.value.commitment)
        && |pkg.value.commitment| > 0 && 0 < share.value.share < N
        && AddInto(x, share.value.share).Some? && CombineInto(pk, pkg.value.commitment[0]).Some?
  {
    hide FindPackage, FindShare, AddInto, CombineInto, Verify, XOf, CommitmentAt;
  }

  /** The sums after dealer `k`. */
  lemma SumsVanish(h: Hashes, index: Index, round1: seq<Round1Package>, shares: seq<Round2Share>, k: u16)
    requires k > 0 && FinalizePrefix(h, index, round1, shares, k - 1).Ok?
    requires var pkg, share := FindPackage(round1, k), FindShare(shares, k, index);
      && pkg.Some? && VerifyRound1(h, pkg.value) && share.Some?
      && VerifyRound2Share(share.value, pkg.value.commitment)
    ensures var (x, pk) := FinalizePrefix(h, index, round1, shares, k - 1).value;
      var pkg, share := FindPackage(round1, k), FindShare(shares, k, index);
      && |pkg.value.commitment| > 0 && 0 < share.value.share < N
      && (AddInto(x, share.value.share).None? <==> Cong(N, PolyVal(GroupPoly(round1, k), index), 0))
      && (CombineInto(pk, pkg.value.commitment[0]).None? <==> Cong(N, PolyVal(GroupPoly(round1, k), 0), 0))
  {
    hide *;
    var (x, pk) := FinalizePrefix(h, index, round1, shares, k - 1).value;
    var pkg, share := FindPackage(round1, k), FindShare(shares, k, index);
    FinalizePrefixIs(h, index, round1, shares, k - 1);
    var before, mine := GroupPoly(round1, k - 1), Logs(pkg.value.commitment);
    GroupStep(round1, k);
    if k == 1 { NoGroup(round1, index); }
    AcceptedShareIsPoly(share.value, pkg.value.commitment);
    VerifiedNonEmpty(h, pkg.value);
    PolyAddValue(before, mine, index);
    PolyAddValue(before, mine, 0);
    ConstantTerm(pkg.value.commitment);
    AddVanishes(x, share.value.share, PolyVal(before, index), PolyVal(mine, index));
    CombineVanishes(pk, pkg.value.commitment[0], PolyVal(before, 0));
  }

  lemma GroupStep(round1: seq<Round1Package>, k: u16)
    requires k > 0 && FindPackage(round1, k).Some?
    ensures GroupPoly(round1, k) == PolyAdd(GroupPoly(round1, k - 1), Logs(FindPackage(round1, k).value.commitment))
  {
    hide FindPackage, PolyAdd, Logs;
  }

  lemma NoGroup(round1: seq<Round1Package>, x: int)
    ensures PolyVal(GroupPoly(round1, 0), x) == 0 && PolyVal(GroupPoly(round1, 0), 0) == 0
  {
  }

  lemma StaysIs(round1: seq<Round1Package>, index: Index, j: nat)
    ensures Stays(round1, index, j) <==>
      !Cong(N, PolyVal(GroupPoly(round1, j), index), 0) && !Cong(N, PolyVal(GroupPoly(round1, j), 0), 0)
  {
    hide Cong, PolyVal, GroupPoly;
  }

  lemma FinalizeStep(h: Hashes, index: Index, round1: seq<Round1Package>, shares: seq<Round2Share>, k: u16)
    requires IsPrime(N) && k > 0 && FinalizePrefix(h, index, round1, shares, k - 1).Ok?
    ensures FinalizePrefix(h, index, round1, shares, k).Ok? <==>
      Delivered(h, index, round1, shares, k) && Stays(round1, index, k)
  {
    hide *;
    FinalizeUnfold(h, index, round1, shares, k);
    DeliveredIs(h, index, round1, shares, k);
    StaysIs(round1, index, k);
    if Delivered(h, index, round1, shares, k) { SumsVanish(h, index, round1, shares, k); }
  }

  lemma NoDealers(h: Hashes, index: Index, round1: seq<Round1Package>, shares: seq<Round2Share>)
    ensures FinalizePrefix(h, index, round1, shares, 0).Ok?
  {
  }

  lemma {:induction false} FinalizesTo(h: Hashes, index: Index, round1: seq<Round1Package>, shares: seq<Round2Share>,
                                       k: u16)
    requires IsPrime(N)
    ensures FinalizePrefix(h, index, round1, shares, k).Ok? <==>
      forall j :: 1 <= j <= k ==> Delivered(h, index, round1, shares, j) && Stays(round1, index, j)
    decreases k
  {
    hide *;
    if k == 0 {
      NoDealers(h, index, round1, shares);
    } else {
      FinalizesTo(h, index, round1, shares, k - 1);
      if FinalizePrefix(h, index, round1, shares, k - 1).Ok? {
        FinalizeStep(h, index, round1, shares, k);
      } else {
        FinalizePrefixFails(h, index, round1, shares, k - 1, k);
      }
    }
  }

  /** A participant takes a key exactly when there is one broadcast a dealer, every dealer
      delivered, and neither sum vanishes on the way: no unproved commitment and no share off
      its polynomial ever enters a key. */
  lemma FinalizesIff(h: Hashes, index: Index, n: u16, t: u16, round1: seq<Round1Package>, shares: seq<Round2Share>)
    requires IsPrime(N)
    ensures FinalizeKey(h, index, n, t, round1, shares).Ok? <==>
      && |round1| == n > 0
      && forall j :: 1 <= j <= n ==> Delivered(h, index, round1, shares, j) && Stays(round1, index, j)
  {
    hide IsPrime, Delivered, Stays, FinalizePrefix, XOf, IsOdd;
    FinalizesTo(h, index, round1, shares, n);
    if FinalizePrefix(h, index, round1, shares, n).Ok? { FinalizePrefixIs(h, index, round1, shares, n); }
  }

  // ------------------------------------------------------ when key generation succeeds

  /** Dealer `j + 1` can be made. */
  predicate Deals(h: Hashes, n: u16, t: u16, localSeed: Seed, j: nat)
    requires j < n
  {
    NewDealer(h, j + 1, n, t, localSeed).Ok?
  }

  lemma {:induction false} DealersIff(h: Hashes, n: u16, t: u16, localSeed: Seed, k: nat)
    requires k <= n
    ensures Dealers(h, n, t, localSeed, k).Ok? <==> forall j :: 0 <= j < k ==> Deals(h, n, t, localSeed, j)
  {
    hide NewDealer;
    if k > 0 {
      DealersIff(h, n, t, localSeed, k - 1);
      assert Deals(h, n, t, localSeed, k - 1) <==> NewDealer(h, k, n, t, localSeed).Ok?;
      hide Deals;
    }
  }

  lemma {:induction false} SharesIff(dealers: seq<Dealer>, to: Index, k: nat)
    requires k <= |dealers| && Dealt(dealers)
    ensures SharesTo(dealers, to, k).Ok? <==> forall j :: 0 <= j < k ==> Round2(dealers[j], to).Ok?
    ensures SharesTo(dealers, to, k).Ok? ==>
      && |SharesTo(dealers, to, k).value| == k
      && forall j :: 0 <= j < k ==> SharesTo(dealers, to, k).value[j] == Round2(dealers[j], to).value
  {
    hide Round2, Dealt;
    if k > 0 { SharesIff(dealers, to, k - 1); }
  }

  lemma {:induction false} SignersIff(h: Hashes, n: u16, t: u16, dealers: seq<Dealer>, k: nat)
    requires k <= |dealers| && Dealt(dealers)
    ensures Signers(h, n, t, dealers, k).Ok? <==>
      forall j :: 0 <= j < k ==> FinalizedSigner(h, n, t, dealers, j).Ok?
  {
    hide FinalizedSigner, Dealt;
    if k > 0 { SignersIff(h, n, t, dealers, k - 1); }
  }

  lemma {:induction false} FindSent(shares: seq<Round2Share>, to: Index, i: nat)
    requires i < |shares| && forall j :: 0 <= j < |shares| ==> shares[j].to == to
    requires forall j, m :: 0 <= j < m < |shares| ==> shares[j].from != shares[m].from
    ensures FindShare(shares, shares[i].from, to) == Some(shares[i])
  {
    if i > 0 { FindSent(shares[1..], to, i - 1); }
  }

  /** Between dealer `j` and participant `k`, both counted from zero, nothing vanishes: no tail
      of the dealer's coefficients, which forms the share, no prefix, which checks it, and
      neither sum after it. */
  ghost predicate Passes(dealers: seq<Dealer>, k: nat, j: nat)
    requires j < |dealers| && k + 1 < 0x1_0000
  {
    && !SomeTailVanishes(Ints(dealers[j].poly), k + 1) && !SomePrefixVanishes(Ints(dealers[j].poly), k + 1)
    && Stays(Broadcasts(dealers), k + 1, j + 1)
  }

  /** Nothing vanishes between participant `k` and any dealer. */
  ghost predicate Served(dealers: seq<Dealer>, k: nat)
    requires k + 1 < 0x1_0000
  {
    forall j :: 0 <= j < |dealers| ==> Passes(dealers, k, j)
  }

  /** The dealers 1..=n of one key generation. */
  ghost predicate Cast(h: Hashes, n: u16, t: u16, localSeed: Seed, dealers: seq<Dealer>) {
    |dealers| == n && forall j :: 0 <= j < n ==> NewDealer(h, j + 1, n, t, localSeed) == Ok(dealers[j])
  }

  lemma CastAt(h: Hashes, n: u16, t: u16, localSeed: Seed, dealers: seq<Dealer>, j: nat)
    requires Cast(h, n, t, localSeed, dealers) && j < n
    ensures |dealers| == n && NewDealer(h, j + 1, n, t, localSeed) == Ok(dealers[j])
    ensures dealers[j].index == j + 1 && |dealers[j].poly| > 0
    ensures Broadcasts(dealers)[j] == Round1(dealers[j]) && Broadcasts(dealers)[j].index == j + 1
  {
    assert NewDealer(h, j + 1, n, t, localSeed) == Ok(dealers[j]) by { hide NewDealer; }
    hide NewDealer, Cast;
    DealerFields(h, j + 1, n, t, localSeed);
    HasPoly(h, j + 1, n, t, localSeed);
  }

  lemma CastDealt(h: Hashes, n: u16, t: u16, localSeed: Seed, dealers: seq<Dealer>)
    requires Cast(h, n, t, localSeed, dealers)
    ensures Dealt(dealers) && |dealers| == n
  {
    assert |dealers| == n by { hide NewDealer; }
    hide Cast, NewDealer;
    forall j | 0 <= j < n
      ensures |dealers[j].poly| > 0
    {
      CastAt(h, n, t, localSeed, dealers, j);
    }
  }

  lemma Round2Ends(d: Dealer, to: Index)
    requires |d.poly| > 0 && Round2(d, to).Ok?
    ensures Round2(d, to).value.from == d.index && Round2(d, to).value.to == to
  {
    hide Horner;
  }

  /** What dealer `j` sent reaches participant `i`. */
  lemma Reaches(h: Hashes, n: u16, t: u16, localSeed: Seed, dealers: seq<Dealer>, i: Index, j: nat)
    requires Cast(h, n, t, localSeed, dealers) && |dealers| == n && Dealt(dealers) && j < n
    requires SharesTo(dealers, i, n).Ok?
    ensures |dealers[j].poly| > 0 && Round2(dealers[j], i).Ok?
    ensures FindPackage(Broadcasts(dealers), j + 1) == Some(Round1(dealers[j]))
    ensures FindShare(SharesTo(dealers, i, n).value, j + 1, i) == Some(Round2(dealers[j], i).value)
  {
    hide *;
    var shares := SharesTo(dealers, i, n).value;
    SharesIff(dealers, i, n);
    forall m | 0 <= m < n
      ensures Broadcasts(dealers)[m].index == m + 1 && |dealers[m].poly| > 0
      ensures shares[m].from == m + 1 && shares[m].to == i
    {
      CastAt(h, n, t, localSeed, dealers, m);
      Round2Ends(dealers[m], i);
    }
    CastAt(h, n, t, localSeed, dealers, j);
    FindBroadcast(Broadcasts(dealers), j);
    FindSent(shares, i, j);
  }

  lemma DeliversIff(h: Hashes, n: u16, t: u16, localSeed: Seed, dealers: seq<Dealer>, i: Index, j: nat)
    requires IsPrime(N) && Cast(h, n, t, localSeed, dealers) && |dealers| == n && Dealt(dealers) && j < n
    requires SharesTo(dealers, i, n).Ok?
    ensures Delivered(h, i, Broadcasts(dealers), SharesTo(dealers, i, n).value, j + 1) <==>
      !SomePrefixVanishes(Ints(dealers[j].poly), i)
  {
    hide *;
    Reaches(h, n, t, localSeed, dealers, i, j);
    CastAt(h, n, t, localSeed, dealers, j);
    HonestDealerAccepted(h, j + 1, n, t, localSeed, i);
    DeliveredIs(h, i, Broadcasts(dealers), SharesTo(dealers, i, n).value, j + 1);
    CommitmentSent(dealers[j]);
  }

  lemma CommitmentSent(d: Dealer)
    ensures Round1(d).commitment == d.commitment
  {
  }

  lemma FinalizedIs(h: Hashes, n: u16, t: u16, dealers: seq<Dealer>, k: nat)
    requires k < |dealers| == n && Dealt(dealers) && dealers[k].index == k + 1
    ensures FinalizedSigner(h, n, t, dealers, k).Ok? <==>
      && SharesTo(dealers, k + 1, n).Ok?
      && FinalizeKey(h, k + 1, n, t, Broadcasts(dealers), SharesTo(dealers, k + 1, n).value).Ok?
  {
    hide FinalizeKey, SharesTo, Dealt;
  }

  /** With the shares at hand, participant `i` takes its key exactly when no prefix and no sum
      vanishes. */
  lemma TakesIff(h: Hashes, n: u16, t: u16, localSeed: Seed, dealers: seq<Dealer>, i: Index)
    requires IsPrime(N) && Cast(h, n, t, localSeed, dealers) && |dealers| == n > 0 && Dealt(dealers)
    requires SharesTo(dealers, i, n).Ok?
    ensures FinalizeKey(h, i, n, t, Broadcasts(dealers), SharesTo(dealers, i, n).value).Ok? <==>
      forall j :: 0 <= j < n ==>
        !SomePrefixVanishes(Ints(dealers[j].poly), i) && Stays(Broadcasts(dealers), i, j + 1)
  {
    hide *;
    var round1, shares := Broadcasts(dealers), SharesTo(dealers, i, n).value;
    FinalizesIff(h, i, n, t, round1, shares);
    forall j | 0 <= j < n
      ensures Delivered(h, i, round1, shares, j + 1) <==> !SomePrefixVanishes(Ints(dealers[j].poly), i)
    {
      DeliversIff(h, n, t, localSeed, dealers, i, j);
    }
    if forall j :: 0 <= j < n ==> !SomePrefixVanishes(Ints(dealers[j].poly), i) && Stays(round1, i, j + 1) {
      forall j | 1 <= j <= n
        ensures Delivered(h, i, round1, shares, j) && Stays(round1, i, j)
      {
        var before := j - 1;
        assert !SomePrefixVanishes(Ints(dealers[before].poly), i) && Stays(round1, i, before + 1);
      }
    }
  }

  /** Participant `k + 1` gets its key exactly when nothing vanishes between it and any dealer. */
  lemma SignerIff(h: Hashes, n: u16, t: u16, localSeed: Seed, dealers: seq<Dealer>, k: nat)
    requires IsPrime(N) && Cast(h, n, t, localSeed, dealers) && |dealers| == n && Dealt(dealers) && k < n
    ensures FinalizedSigner(h, n, t, dealers, k).Ok? <==> Served(dealers, k)
  {
    hide *;
    var i: Index := k + 1;
    CastAt(h, n, t, localSeed, dealers, k);
    FinalizedIs(h, n, t, dealers, k);
    SharesIff(dealers, i, n);
    forall j | 0 <= j < n
      ensures |dealers[j].poly| > 0
      ensures Round2(dealers[j], i).Ok? <==> !SomeTailVanishes(Ints(dealers[j].poly), i)
      ensures Passes(dealers, k, j) <==>
        && !SomeTailVanishes(Ints(dealers[j].poly), i) && !SomePrefixVanishes(Ints(dealers[j].poly), i)
        && Stays(Broadcasts(dealers), i, j + 1)
    {
      CastAt(h, n, t, localSeed, dealers, j);
      HonestDealerAccepted(h, j + 1, n, t, localSeed, i);
      PassesIs(dealers, k, j);
    }
    if SharesTo(dealers, i, n).Ok? { TakesIff(h, n, t, localSeed, dealers, i); }
    ServedIs(dealers, k);
  }

  lemma ServedIs(dealers: seq<Dealer>, k: nat)
    requires k + 1 < 0x1_0000
    ensures Served(dealers, k) <==> forall j :: 0 <= j < |dealers| ==> Passes(dealers, k, j)
  {
    hide Passes;
  }

  lemma PassesIs(dealers: seq<Dealer>, k: nat, j: nat)
    requires j < |dealers| && k + 1 < 0x1_0000
    ensures Passes(dealers, k, j) <==>
      && !SomeTailVanishes(Ints(dealers[j].poly), k + 1) && !SomePrefixVanishes(Ints(dealers[j].poly), k + 1)
      && Stays(Broadcasts(dealers), k + 1, j + 1)
  {
    hide SomeTailVanishes, SomePrefixVanishes, Stays;
  }

  /** Key generation succeeds exactly when every dealer can prove its constant term and nothing
      vanishes between any dealer and any participant. */
  lemma KeygenIff(h: Hashes, n: u16, t: u16, localSeed: Seed)
    requires IsPrime(N)
    ensures Dealers(h, n, t, localSeed, n).Ok? <==> forall j :: 0 <= j < n ==> Deals(h, n, t, localSeed, j)
    ensures Keygen(h, n, t, localSeed).Ok? <==>
      && n > 0 && Dealers(h, n, t, localSeed, n).Ok?
      && forall k :: 0 <= k < n ==> Served(Dealers(h, n, t, localSeed, n).value, k)
  {
    hide *;
    DealersIff(h, n, t, localSeed, n);
    KeygenOkIs(h, n, t, localSeed);
    if Dealers(h, n, t, localSeed, n).Ok? {
      var dealers := Dealers(h, n, t, localSeed, n).value;
      DealersAre(h, n, t, localSeed, n);
      CastIs(h, n, t, localSeed, dealers);
      CastDealt(h, n, t, localSeed, dealers);
      SignersIff(h, n, t, dealers, n);
      forall k | 0 <= k < n
        ensures FinalizedSigner(h, n, t, dealers, k).Ok? <==> Served(dealers, k)
      {
        SignerIff(h, n, t, localSeed, dealers, k);
      }
    }
  }

  lemma CastIs(h: Hashes, n: u16, t: u16, localSeed: Seed, dealers: seq<Dealer>)
    requires |dealers| == n && forall j :: 0 <= j < n ==> NewDealer(h, j + 1, n, t, localSeed) == Ok(dealers[j])
    ensures Cast(h, n, t, localSeed, dealers)
  {
    hide NewDealer;
  }

  lemma KeygenOkIs(h: Hashes, n: u16, t: u16, localSeed: Seed)
    ensures Keygen(h, n, t, localSeed).Ok? <==>
      && n > 0 && Dealers(h, n, t, localSeed, n).Ok?
      && Dealt(Dealers(h, n, t, localSeed, n).value)
      && Signers(h, n, t, Dealers(h, n, t, localSeed, n).value, n).Ok?
  {
    if Dealers(h, n, t, localSeed, n).Ok? { DealersAre(h, n, t, localSeed, n); }
    hide Dealers, Signers, Dealt;
  }

  /** A quorum is accepted exactly when it is large enough and names distinct participants. */
  lemma QuorumIff(quorum: seq<u16>, n: u16, t: u16)
    ensures CheckQuorum(quorum, n, t).Ok? <==>
      && |quorum| >= t && (forall i :: 0 <= i < |quorum| ==> 1 <= quorum[i] <= n)
      && forall i, j :: 0 <= i < j < |quorum| ==> quorum[i] != quorum[j]
    ensures |quorum| < t ==> CheckQuorum(quorum, n, t) == Err(QuorumTooSmall)
  {
    forall i, j | 0 <= i < j < |quorum|
      ensures quorum[i] == quorum[j] ==> quorum[j] in quorum[..j]
    {
      assert quorum[..j][i] == quorum[i];
    }
  }
}
