/** The oracle quorum: admission of the messages and the median price. */
module Aggregate {
  import opened Options
  import opened Bytes
  import opened Sorting
  import opened StateTypes

  const ORACLE_THRESHOLD: nat := 3
  const ORACLE_SET_SIZE: nat := 5
  const OUTLIER_DEV_BPS: nat := 200

  datatype OracleParams = OracleParams(
    setEpoch: u64, setHash: Bytes32, chainTime: u64, maxEpochLag: u32, futureTolerance: u32, signerSet: seq<Bytes32>)

  function VerifySignatures(c: Crypto, ms: seq<OracleMessage>): Option<OracleReject> {
    if forall i :: 0 <= i < |ms| ==> c.eddsa(ms[i]) then None else Some(SignatureInvalid)
  }

  method CheckSignatures(c: Crypto, ms: seq<OracleMessage>) returns (r: Option<OracleReject>)
    ensures r == VerifySignatures(c, ms)
  {
    for i := 0 to |ms|
      invariant forall k :: 0 <= k < i ==> c.eddsa(ms[k])
    {
      if !c.eddsa(ms[i]) { return Some(SignatureInvalid); }
    }
    r := None;
  }

  /** Admission of message `i` after the ones before it. */
  function Admit(ms: seq<OracleMessage>, p: OracleParams, i: nat): Option<OracleReject>
    requires i < |ms|
  {
    var m := ms[i];
    var ts := m.timestampMs / 1000;
    if m.signer !in p.signerSet then Some(SignerNotInSet)
    else if exists k :: 0 <= k < i && ms[k].signer == m.signer then Some(DuplicateSigner)
    else if m.setEpoch != p.setEpoch then Some(WrongOracleSetEpoch)
    else if p.chainTime > ts && p.chainTime - ts > p.maxEpochLag then Some(StaleOracle)
    else if ts > p.chainTime && ts - p.chainTime > p.futureTolerance then Some(FutureOracle)
    else None
  }

  /** The first refusal from message `i` on. */
  function AdmitFrom(ms: seq<OracleMessage>, p: OracleParams, i: nat): Option<OracleReject>
    requires i <= |ms|
    decreases |ms| - i
  {
    if i == |ms| then None else if Admit(ms, p, i).Some? then Admit(ms, p, i) else AdmitFrom(ms, p, i + 1)
  }

  const itself: int -> int := (x: int) => x

  function Prices(ms: seq<OracleMessage>): (r: seq<int>)
    ensures |r| == |ms|
  {
    seq<int>(|ms|, i requires 0 <= i < |ms| => ms[i].price)
  }

  function MedianOf(ms: seq<OracleMessage>): int
    requires |ms| > 0
  {
    SortBy(Prices(ms), itself)[|ms| / 2]
  }

  predicate Inlier(price: int, median: int) {
    (if price >= median then price - median else median - price) * 10_000 <= median * OUTLIER_DEV_BPS
  }

  function One(median: int): int -> nat {
    (price: int) => if Inlier(price, median) then 1 else 0
  }

  function Aggregated(c: Crypto, ms: seq<OracleMessage>, p: OracleParams): Result<u64, OracleReject> {
    if c.oracleSetHash(p.setEpoch, multiset(p.signerSet)) != p.setHash then Err(OracleSetHashMismatch)
    else if |ms| < ORACLE_THRESHOLD then Err(QuorumInsufficient)
    else if |ms| > ORACLE_SET_SIZE then Err(TooManyMessages)
    else if AdmitFrom(ms, p, 0).Some? then Err(AdmitFrom(ms, p, 0).value)
    else
      MedianIsPrice(ms);
      var median := MedianOf(ms);
      if Total(SortBy(Prices(ms), itself), One(median)) < ORACLE_THRESHOLD then Err(InsufficientInliers) else Ok(median)
  }

  lemma MedianIsPrice(ms: seq<OracleMessage>)
    requires |ms| > 0
    ensures exists i :: 0 <= i < |ms| && MedianOf(ms) == ms[i].price
  {
    var sorted := SortBy(Prices(ms), itself);
    SortAscends(Prices(ms), itself);
    assert sorted[|ms| / 2] in multiset(sorted);
    assert MedianOf(ms) in Prices(ms);
  }

  method Aggregate(c: Crypto, ms: seq<OracleMessage>, p: OracleParams) returns (r: Result<u64, OracleReject>)
    ensures r == Aggregated(c, ms, p)
  {
    hide SortBy, Total, Inlier;
    if c.oracleSetHash(p.setEpoch, multiset(p.signerSet)) != p.setHash { return Err(OracleSetHashMismatch); }
    if |ms| < ORACLE_THRESHOLD { return Err(QuorumInsufficient); }
    if |ms| > ORACLE_SET_SIZE { return Err(TooManyMessages); }
    var seen: seq<Bytes32> := [];
    for i := 0 to |ms|
      invariant |seen| == i && forall k :: 0 <= k < i ==> seen[k] == ms[k].signer
      invariant AdmitFrom(ms, p, 0) == AdmitFrom(ms, p, i)
    {
      var m := ms[i];
      if m.signer !in p.signerSet { return Err(SignerNotInSet); }
      if m.signer in seen {
        assert exists k :: 0 <= k < i && ms[k].signer == m.signer;
        return Err(DuplicateSigner);
      }
      assert forall k :: 0 <= k < i ==> seen[k] in seen && ms[k].signer == seen[k];
      seen := seen + [m.signer];
      if m.setEpoch != p.setEpoch { return Err(WrongOracleSetEpoch); }
      var ts := m.timestampMs / 1000;
      if p.chainTime > ts && p.chainTime - ts > p.maxEpochLag { return Err(StaleOracle); }
      if ts > p.chainTime && ts - p.chainTime > p.futureTolerance { return Err(FutureOracle); }
    }
    var prices := SortBy(Prices(ms), itself);
    var median := prices[|ms| / 2];
    var inliers := 0;
    StartCount(prices, median);
    for i := 0 to |prices|
      invariant inliers == Total(prices[..i], One(median))
    {
      TotalStep(prices, i, One(median));
      if Inlier(prices[i], median) { inliers := inliers + 1; }
    }
    assert prices[..|prices|] == prices;
    if inliers < ORACLE_THRESHOLD { return Err(InsufficientInliers); }
    MedianIsPrice(ms);
    r := Ok(median);
  }

  lemma StartCount(prices: seq<int>, median: int)
    ensures Total(prices[..0], One(median)) == 0
  {
  }

  // ----------------------------------------------------------------- robustness

  function LowerThan(p: int): int -> nat {
    (x: int) => if x < p then 1 else 0
  }

  function AtMost(p: int): int -> nat {
    (x: int) => if x <= p then 1 else 0
  }

  lemma {:induction false} CountBounds(s: seq<int>, w: int -> nat)
    requires forall i :: 0 <= i < |s| ==> w(s[i]) <= 1
    ensures Total(s, w) <= |s|
    ensures (forall i :: 0 <= i < |s| ==> w(s[i]) == 0) ==> Total(s, w) == 0
    ensures (forall i :: 0 <= i < |s| ==> w(s[i]) == 1) ==> Total(s, w) == |s|
  {
    if |s| > 0 { CountBounds(s[..|s| - 1], w); }
  }

  /** The middle of a sorted list has no more than half of it strictly below. */
  lemma MiddleCounts(s: seq<int>, i: nat)
    requires Ascending(s, itself) && i < |s|
    ensures Total(s, LowerThan(s[i])) <= i
    ensures Total(s, AtMost(s[i])) >= i + 1
  {
    var p := s[i];
    forall k | 0 <= k < |s| ensures (k < i ==> s[k] <= p) && (i < k ==> p <= s[k]) {
      assert k < i ==> itself(s[k]) <= itself(s[i]);
      assert i < k ==> itself(s[i]) <= itself(s[k]);
    }
    hide Total, Ascending;
    AtMostPrefix(s, i, LowerThan(p));
    AtLeastPrefix(s, i + 1, AtMost(p));
  }

  lemma AtMostPrefix(s: seq<int>, i: nat, w: int -> nat)
    requires i <= |s| && forall k :: 0 <= k < |s| ==> w(s[k]) <= 1
    requires forall k :: i <= k < |s| ==> w(s[k]) == 0
    ensures Total(s, w) <= i
  {
    hide Total;
    assert s == s[..i] + s[i..];
    TotalSplit(s[..i], s[i..], w);
    CountBounds(s[..i], w);
    CountBounds(s[i..], w);
  }

  lemma AtLeastPrefix(s: seq<int>, i: nat, w: int -> nat)
    requires i <= |s| && forall k :: 0 <= k < i ==> w(s[k]) == 1
    ensures Total(s, w) >= i
  {
    hide Total;
    assert s == s[..i] + s[i..];
    TotalSplit(s[..i], s[i..], w);
    CountBounds(s[..i], w);
  }

  lemma MedianCounts(ms: seq<OracleMessage>)
    requires |ms| > 0
    ensures Total(Prices(ms), LowerThan(MedianOf(ms))) <= |ms| / 2
    ensures Total(Prices(ms), AtMost(MedianOf(ms))) >= |ms| / 2 + 1
  {
    var sorted := SortBy(Prices(ms), itself);
    SortAscends(Prices(ms), itself);
    hide SortBy, Total, Ascending;
    MiddleCounts(sorted, |ms| / 2);
    TotalPermuted(Prices(ms), sorted, LowerThan(MedianOf(ms)));
    TotalPermuted(Prices(ms), sorted, AtMost(MedianOf(ms)));
  }

  /** Robustness: any strict majority of the messages brackets the aggregate. */
  lemma MajorityBrackets(c: Crypto, ms: seq<OracleMessage>, p: OracleParams, part: seq<int>, rest: seq<int>)
    requires Aggregated(c, ms, p).Ok?
    requires multiset(Prices(ms)) == multiset(part + rest) && 2 * |part| > |ms|
    ensures exists i :: 0 <= i < |part| && part[i] <= Aggregated(c, ms, p).value
    ensures exists i :: 0 <= i < |part| && Aggregated(c, ms, p).value <= part[i]
  {
    var m := MedianOf(ms);
    MedianCounts(ms);
    hide SortBy, Total, AdmitFrom;
    TotalPermuted(Prices(ms), part + rest, LowerThan(m));
    TotalPermuted(Prices(ms), part + rest, AtMost(m));
    TotalSplit(part, rest, LowerThan(m));
    TotalSplit(part, rest, AtMost(m));
    PermutedLength(Prices(ms), part + rest);
    CountBounds(rest, AtMost(m));
    CountBounds(part, AtMost(m));
    CountBounds(part, LowerThan(m));
  }

  lemma PermutedLength(a: seq<int>, b: seq<int>)
    requires multiset(a) == multiset(b)
    ensures |a| == |b|
  {
    assert |multiset(a)| == |a| && |multiset(b)| == |b|;
  }

  // ------------------------------------------------------------ order of arrival

  function PriceKey(): OracleMessage -> int {
    (m: OracleMessage) => m.price
  }

  function SignerKey(): OracleMessage -> int {
    (m: OracleMessage) => m.signer
  }

  /** A message is admitted on its own account. */
  predicate Fine(m: OracleMessage, p: OracleParams) {
    var ts := m.timestampMs / 1000;
    && m.signer in p.signerSet && m.setEpoch == p.setEpoch
    && (p.chainTime > ts ==> p.chainTime - ts <= p.maxEpochLag)
    && (ts > p.chainTime ==> ts - p.chainTime <= p.futureTolerance)
  }

  lemma AdmitIff(ms: seq<OracleMessage>, p: OracleParams, i: nat)
    requires i < |ms|
    ensures Admit(ms, p, i).None? <==> Fine(ms[i], p) && forall k :: 0 <= k < i ==> ms[k].signer != ms[i].signer
  {
  }

  lemma {:induction false} AdmitFromIff(ms: seq<OracleMessage>, p: OracleParams, i: nat)
    requires i <= |ms|
    ensures AdmitFrom(ms, p, i).None? <==>
      forall j :: i <= j < |ms| ==> Fine(ms[j], p) && forall k :: 0 <= k < j ==> ms[k].signer != ms[j].signer
    decreases |ms| - i
  {
    if i < |ms| {
      AdmitIff(ms, p, i);
      AdmitFromIff(ms, p, i + 1);
      hide Admit, Fine;
    }
  }

  /** All messages are admitted exactly when each is fine and no signer repeats. */
  lemma AdmittedIff(ms: seq<OracleMessage>, p: OracleParams)
    ensures AdmitFrom(ms, p, 0).None? <==> (forall m :: m in ms ==> Fine(m, p)) && DistinctBy(ms, SignerKey())
  {
    AdmitFromIff(ms, p, 0);
    assert forall j :: 0 <= j < |ms| ==> SignerKey()(ms[j]) == ms[j].signer && ms[j] in ms;
    hide Fine, AdmitFrom;
  }

  lemma AdmittedPermuted(ms: seq<OracleMessage>, ms': seq<OracleMessage>, p: OracleParams)
    requires multiset(ms) == multiset(ms')
    ensures AdmitFrom(ms, p, 0).None? <==> AdmitFrom(ms', p, 0).None?
    ensures |ms| == |ms'| && multiset(Prices(ms)) == multiset(Prices(ms'))
  {
    assert |multiset(ms)| == |ms| && |multiset(ms')| == |ms'|;
    AdmittedIff(ms, p);
    AdmittedIff(ms', p);
    DistinctPermuted(ms, ms', SignerKey());
    KeysPermuted(ms, ms', PriceKey());
    assert Prices(ms) == Keys(ms, PriceKey()) && Prices(ms') == Keys(ms', PriceKey());
    assert forall m :: m in ms <==> m in multiset(ms);
    assert forall m :: m in ms' <==> m in multiset(ms');
    hide Fine, AdmitFrom, DistinctBy;
  }

  lemma MedianPermuted(ms: seq<OracleMessage>, ms': seq<OracleMessage>)
    requires |ms| > 0 && |ms'| > 0 && multiset(Prices(ms)) == multiset(Prices(ms'))
    ensures MedianOf(ms) == MedianOf(ms')
  {
    var m, m' := MedianOf(ms), MedianOf(ms');
    MedianCounts(ms);
    MedianCounts(ms');
    PermutedLength(Prices(ms), Prices(ms'));
    hide SortBy, Total;
    TotalPermuted(Prices(ms), Prices(ms'), LowerThan(m));
    TotalPermuted(Prices(ms), Prices(ms'), AtMost(m));
    if m < m' {
      TotalMonotone(Prices(ms'), AtMost(m), LowerThan(m'));
    } else if m' < m {
      TotalMonotone(Prices(ms'), AtMost(m'), LowerThan(m));
    }
  }

  lemma InliersPermuted(a: seq<int>, b: seq<int>, w: int -> nat)
    requires multiset(a) == multiset(b)
    ensures Total(SortBy(a, itself), w) == Total(SortBy(b, itself), w)
  {
    SortAscends(a, itself);
    SortAscends(b, itself);
    hide SortBy, Ascending;
    TotalPermuted(SortBy(a, itself), SortBy(b, itself), w);
  }

  /** The same messages in another order are accepted or refused alike, with the same
      aggregate; only the reason given for a message that is not admitted may differ. */
  lemma AggregatePermuted(c: Crypto, ms: seq<OracleMessage>, ms': seq<OracleMessage>, p: OracleParams)
    requires multiset(ms) == multiset(ms')
    ensures Aggregated(c, ms, p) == Aggregated(c, ms', p) || (AdmitFrom(ms, p, 0).Some? && AdmitFrom(ms', p, 0).Some?)
    ensures Aggregated(c, ms, p).Ok? <==> Aggregated(c, ms', p).Ok?
  {
    AdmittedPermuted(ms, ms', p);
    if |ms| > 0 {
      MedianPermuted(ms, ms');
      InliersPermuted(Prices(ms), Prices(ms'), One(MedianOf(ms)));
    }
    hide SortBy, Total, AdmitFrom, MedianOf, Prices, One;
  }

  // ---------------------------------------------------- when a quorum has a price

  /** Within two percent of the median, on either side. */
  predicate Near(price: int, median: int) {
    (price - median) * 10_000 <= 200 * median && (median - price) * 10_000 <= 200 * median
  }

  lemma InlierIff(price: int, median: int)
    ensures Inlier(price, median) <==> Near(price, median)
  {
  }

  /** A price with at most half of the messages below it and more than half up to it. */
  ghost predicate IsMiddle(ms: seq<OracleMessage>, m: int) {
    && (exists i :: 0 <= i < |ms| && ms[i].price == m)
    && Total(Prices(ms), LowerThan(m)) <= |ms| / 2 && Total(Prices(ms), AtMost(m)) >= |ms| / 2 + 1
  }

  lemma MiddleIff(ms: seq<OracleMessage>, m: int)
    requires |ms| > 0
    ensures IsMiddle(ms, m) <==> m == MedianOf(ms)
  {
    MedianCounts(ms);
    MedianIsPrice(ms);
    var m' := MedianOf(ms);
    hide MedianOf, Total;
    if m < m' {
      TotalMonotone(Prices(ms), AtMost(m), LowerThan(m'));
    } else if m' < m {
      TotalMonotone(Prices(ms), AtMost(m'), LowerThan(m));
    }
  }

  /** A count reaches `n + 1` exactly when it reaches `n` before some counted entry. */
  lemma {:induction false} CountReaches(s: seq<int>, w: int -> nat, n: nat)
    requires forall i :: 0 <= i < |s| ==> w(s[i]) <= 1
    ensures Total(s, w) >= n + 1 <==> exists i :: 0 <= i < |s| && w(s[i]) == 1 && Total(s[..i], w) >= n
  {
    if |s| > 0 {
      var last := |s| - 1;
      var init := s[..last];
      CountReaches(init, w, n);
      assert forall i :: 0 <= i <= last ==> init[..i] == s[..i];
      assert Total(s, w) == Total(init, w) + w(s[last]);
      assert forall i :: 0 <= i < last ==> init[i] == s[i];
      hide Total;
      if i :| 0 <= i < |s| && w(s[i]) == 1 && Total(s[..i], w) >= n {
        if i < last { assert w(init[i]) == 1 && Total(init[..i], w) >= n; }
      }
      if Total(s, w) >= n + 1 && w(s[last]) == 1 { assert Total(s[..last], w) >= n; }
    }
  }

  /** Three messages, named in order, are near. */
  ghost predicate ThreeNear(ms: seq<OracleMessage>, m: int) {
    exists i, j, k :: 0 <= i < j < k < |ms| && Near(ms[i].price, m) && Near(ms[j].price, m) && Near(ms[k].price, m)
  }

  lemma OneIs(price: int, m: int)
    ensures One(m)(price) <= 1 && (One(m)(price) == 1 <==> Near(price, m))
  {
    InlierIff(price, m);
  }

  lemma CountOne(s: seq<int>, w: int -> nat)
    requires forall i :: 0 <= i < |s| ==> w(s[i]) <= 1
    ensures Total(s, w) >= 1 <==> exists i :: 0 <= i < |s| && w(s[i]) == 1
  {
    hide Total;
    CountReaches(s, w, 0);
  }

  lemma CountTwo(s: seq<int>, w: int -> nat)
    requires forall i :: 0 <= i < |s| ==> w(s[i]) <= 1
    ensures Total(s, w) >= 2 <==> exists i, j :: 0 <= i < j < |s| && w(s[i]) == 1 && w(s[j]) == 1
  {
    hide Total;
    CountReaches(s, w, 1);
    forall j | 0 <= j < |s|
      ensures Total(s[..j], w) >= 1 <==> exists i :: 0 <= i < j && w(s[i]) == 1
    {
      CountOne(s[..j], w);
      assert forall i :: 0 <= i < j ==> s[..j][i] == s[i];
    }
  }

  lemma CountThree(s: seq<int>, w: int -> nat)
    requires forall i :: 0 <= i < |s| ==> w(s[i]) <= 1
    ensures Total(s, w) >= 3 <==>
      exists i, j, k :: 0 <= i < j < k < |s| && w(s[i]) == 1 && w(s[j]) == 1 && w(s[k]) == 1
  {
    hide Total;
    CountReaches(s, w, 2);
    forall k | 0 <= k < |s|
      ensures Total(s[..k], w) >= 2 <==> exists i, j :: 0 <= i < j < k && w(s[i]) == 1 && w(s[j]) == 1
    {
      CountTwo(s[..k], w);
      assert forall i :: 0 <= i < k ==> s[..k][i] == s[i];
    }
  }

  lemma ThreeIff(ms: seq<OracleMessage>, m: int)
    ensures Total(Prices(ms), One(m)) >= 3 <==> ThreeNear(ms, m)
  {
    var s, w := Prices(ms), One(m);
    forall i | 0 <= i < |s| ensures s[i] == ms[i].price && w(s[i]) <= 1 && (w(s[i]) == 1 <==> Near(ms[i].price, m)) {
      OneIs(s[i], m);
    }
    hide Total, One, Near, Prices;
    CountThree(s, w);
  }

  lemma AggregatedIs(c: Crypto, ms: seq<OracleMessage>, p: OracleParams, m: u64)
    requires |ms| > 0
    ensures Aggregated(c, ms, p) == Ok(m) <==>
      && c.oracleSetHash(p.setEpoch, multiset(p.signerSet)) == p.setHash && 3 <= |ms| <= 5
      && AdmitFrom(ms, p, 0).None? && m == MedianOf(ms) && Total(SortBy(Prices(ms), itself), One(m)) >= 3
  {
    hide AdmitFrom, Total, SortBy, One, MedianOf;
    MedianIsPrice(ms);
  }

  lemma NothingAggregated(c: Crypto, p: OracleParams)
    ensures Aggregated(c, [], p).Err?
  {
  }

  /** When a quorum has a price, and which: the signer set is the one on record, three to five
      messages are fine and from different signers, the price is the middle one of theirs, and
      three of them are near it. */
  lemma AggregatedIff(c: Crypto, ms: seq<OracleMessage>, p: OracleParams, m: u64)
    ensures Aggregated(c, ms, p) == Ok(m) <==>
      && c.oracleSetHash(p.setEpoch, multiset(p.signerSet)) == p.setHash && 3 <= |ms| <= 5
      && (forall i :: 0 <= i < |ms| ==> Fine(ms[i], p))
      && (forall i, j :: 0 <= i < j < |ms| ==> ms[i].signer != ms[j].signer)
      && IsMiddle(ms, m) && ThreeNear(ms, m)
  {
    hide *;
    if |ms| > 0 {
      AdmitFromIff(ms, p, 0);
      AggregatedIs(c, ms, p, m);
      MiddleIff(ms, m);
      ThreeIff(ms, m);
      SortedCount(ms, m);
    } else {
      assert ms == [];
      NothingAggregated(c, p);
    }
  }

  lemma SortedCount(ms: seq<OracleMessage>, m: int)
    ensures Total(SortBy(Prices(ms), itself), One(m)) == Total(Prices(ms), One(m))
  {
    hide SortBy, Total, One, Ascending;
    SortAscends(Prices(ms), itself);
    TotalPermuted(SortBy(Prices(ms), itself), Prices(ms), One(m));
  }
}
