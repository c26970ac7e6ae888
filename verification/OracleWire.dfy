/** Attestations on the wire: what the oracle and the cohort serialize, and what that means
    for the consumer who verifies two of them for equivocation. */
module OracleWire {
  import opened Options
  import opened Modular
  import opened Bytes
  import opened Secp
  import opened Schnorr
  import opened Event
  import opened Frost
  import opened Codec
  import opened Tlv
  import opened Equivocation
  import opened Oracle

  /** How keys and event names are written. */
  datatype Wire = Wire(world: World, write: XOnlyKey -> Word32, eventId: Timestamp -> bytes)

  /** What is read is what was written, and the texts are short UTF-8. */
  ghost predicate Faithful(w: Wire) {
    && (forall x: XOnlyKey :: w.world.view(w.write(x)) == OnCurve(x))
    && (forall ts: Timestamp :: w.world.utf8(w.eventId(ts)) && |w.eventId(ts)| <= 64)
    && w.world.utf8([48]) && w.world.utf8([49])
  }

  /** One such way: keys big-endian, names the eight bytes of the time. */
  function PlainWire(env: Env, digitMsg: Digit -> Bytes32): Wire {
    Wire(World(env, (s: bytes) => true, PlainView, digitMsg), PlainWord, PlainName)
  }

  function PlainView(w: Word32): XBytes {
    if 0 < 2 * BE(w) < N then OnCurve(BE(w)) else OffCurve(BE(w))
  }

  function PlainWord(x: XOnlyKey): Word32 {
    ToBE(x, 32)
  }

  function PlainName(ts: Timestamp): bytes {
    ToBE(ts, 8)
  }

  lemma PlainFaithful(env: Env, digitMsg: Digit -> Bytes32)
    ensures Faithful(PlainWire(env, digitMsg))
  {
    Pow256Of32();
    hide Pow256, BE, ToBE;
    forall x: XOnlyKey
      ensures PlainView(PlainWord(x)) == OnCurve(x)
    {
      BEOfToBE(x, 32);
    }
  }

  predicate AllOnCurve(sigs: seq<Signature>) {
    forall i :: 0 <= i < |sigs| ==> sigs[i].r.OnCurve?
  }

  function RawOf(w: Wire, sig: Signature): Sig64
    requires sig.r.OnCurve?
  {
    w.write(sig.r.key) + ToBE(sig.s, 32)
  }

  function Outcome(d: Digit): bytes {
    if d == 0 then [48] else [49]
  }

  /** The message that both the oracle and the aggregator serialize. */
  function Message(w: Wire, px: XOnlyKey, att: Attestation): ParsedAttestation
    requires AllOnCurve(att.signatures)
  {
    ParsedAttestation(w.eventId(att.event), w.write(px),
                      seq<Sig64>(|att.signatures|, i requires 0 <= i < |att.signatures| => RawOf(w, att.signatures[i])),
                      seq<bytes>(NB_DIGITS, i requires 0 <= i < NB_DIGITS => Outcome(Digits(att.price)[i])))
  }

  /** A message with twenty signatures, or fewer than 2^16, has a 64-bit length. */
  lemma {:induction false} ShortStrings(ss: seq<bytes>)
    requires forall i :: 0 <= i < |ss| ==> |ss[i]| == 1
    ensures AllFit(ss) && |Strings(ss)| == 2 * |ss|
  {
    if |ss| > 0 {
      ShortStrings(ss[1..]);
      assert AllFit(ss);
      assert |VarBytes(ss[0])| == 2;
      hide VarBytes;
    }
  }

  lemma MessageWritable(w: Wire, px: XOnlyKey, att: Attestation)
    requires Faithful(w) && AllOnCurve(att.signatures) && |att.signatures| == NB_DIGITS
    ensures Writable(Message(w, px, att)) && AllText(w.world.utf8, Message(w, px, att))
  {
    var a := Message(w, px, att);
    assert w.world.utf8(w.eventId(att.event)) && |w.eventId(att.event)| <= 64;
    ShortStrings(a.outcomes);
    assert forall i :: 0 <= i < |a.outcomes| ==> w.world.utf8(a.outcomes[i]);
    SmallBody(a);
    hide Body;
  }

  lemma SmallBody(a: ParsedAttestation)
    requires |a.eventId| <= 64 && AllFit(a.outcomes) && |a.signatures| < 0x1_0000 && |Strings(a.outcomes)| < 0x1_0000
    ensures Fits(Body(a))
  {
    assert |VarBytes(a.eventId)| <= 73;
    hide VarBytes, Strings, Flat, ToBE;
  }

  function AttestationTlv(w: Wire, px: XOnlyKey, att: Attestation): bytes
    requires AllOnCurve(att.signatures) && Writable(Message(w, px, att))
  {
    AttestationBytes(Message(w, px, att))
  }

  /** The raw signatures and the outcome characters, then the encoder. */
  method SerializeAttestation(w: Wire, px: XOnlyKey, att: Attestation) returns (tlv: bytes)
    requires AllOnCurve(att.signatures) && Writable(Message(w, px, att))
    ensures tlv == AttestationTlv(w, px, att)
  {
    hide ToBE, Digits, Writable, AttestationBytes;
    var raw: seq<Sig64> := [];
    for i := 0 to |att.signatures|
      invariant |raw| == i && forall k :: 0 <= k < i ==> raw[k] == RawOf(w, att.signatures[k])
    {
      raw := raw + [RawOf(w, att.signatures[i])];
    }
    var ds, outcomes := Digits(att.price), [];
    for i := 0 to NB_DIGITS
      invariant |outcomes| == i && forall k :: 0 <= k < i ==> outcomes[k] == Outcome(ds[k])
    {
      outcomes := outcomes + [if ds[i] == 0 then [48] else [49]];
    }
    var m := ParsedAttestation(w.eventId(att.event), w.write(px), raw, outcomes);
    assert m == Message(w, px, att);
    tlv := WriteAttestation(m);
  }

  lemma RawReads(w: Wire, sig: Signature)
    requires Faithful(w) && sig.r.OnCurve?
    ensures SignatureOf(w.world, RawOf(w, sig)) == sig && NonceBytes(RawOf(w, sig)) == w.write(sig.r.key)
  {
    var raw := RawOf(w, sig);
    assert raw[..32] == w.write(sig.r.key) && raw[32..] == ToBE(sig.s, 32) by { hide ToBE; }
    Pow256Of32();
    hide Pow256;
    BEOfToBE(sig.s, 32);
    assert w.world.view(w.write(sig.r.key)) == OnCurve(sig.r.key);
    hide BE, ToBE;
  }

  lemma OutcomeReads(d: Digit)
    ensures OutcomeDigit(Outcome(d)) == Some(d)
  {
  }

  /** The consumer reads from the bytes what was attested: the event, the key, every
      signature and every digit. */
  lemma AttestationReads(w: Wire, px: XOnlyKey, att: Attestation)
    requires Faithful(w) && AllOnCurve(att.signatures) && |att.signatures| == NB_DIGITS
    ensures Writable(Message(w, px, att))
    ensures ParseAttestation(w.world.utf8, AttestationTlv(w, px, att)) == Ok(Message(w, px, att))
    ensures w.world.view(Message(w, px, att).pubkey) == OnCurve(px)
    ensures forall i :: 0 <= i < NB_DIGITS ==>
      && SignatureOf(w.world, Message(w, px, att).signatures[i]) == att.signatures[i]
      && OutcomeDigit(Message(w, px, att).outcomes[i]) == Some(Digits(att.price)[i])
  {
    MessageWritable(w, px, att);
    assert w.world.view(w.write(px)) == OnCurve(px);
    forall i | 0 <= i < NB_DIGITS
      ensures SignatureOf(w.world, Message(w, px, att).signatures[i]) == att.signatures[i]
      ensures OutcomeDigit(Message(w, px, att).outcomes[i]) == Some(Digits(att.price)[i])
    {
      RawReads(w, att.signatures[i]);
      OutcomeReads(Digits(att.price)[i]);
    }
    hide Writable, AttestationBytes, AllText, ParseAttestation;
    AttestationRoundTrip(w.world.utf8, Message(w, px, att));
  }

  // ------------------------------------------------------------------- the oracle

  lemma {:induction false} SignatureAt(h: OracleHashes, o: Oracle, ts: Timestamp, ds: seq<Digit>, k: nat, i: nat)
    requires i < k <= |ds| && SignaturePrefix(h, o, ts, ds, k).Some?
    ensures SignWithNonce(h.env, o.sk, h.nonce(o.seed, ts, i), h.digitMsg(ds[i])) ==
      Some(SignaturePrefix(h, o, ts, ds, k).value[i])
  {
    hide SignWithNonce;
    if i < k - 1 { SignatureAt(h, o, ts, ds, k - 1, i); }
  }

  /** What the signature on one digit is worth. */
  lemma AttestedDigit(h: OracleHashes, o: Oracle, ts: Timestamp, price: nat, i: nat)
    requires Attesting(h, o, ts, price).Some? && i < NB_DIGITS
    ensures |Attesting(h, o, ts, price).value.signatures| == NB_DIGITS && 0 < o.sk < N && 0 < h.nonce(o.seed, ts, i) < N
    ensures var sig := Attesting(h, o, ts, price).value.signatures[i];
      var px, rx, msg := XOf(PublicOf(o.sk)), XOf(PublicOf(h.nonce(o.seed, ts, i))), h.digitMsg(Digits(price)[i]);
      sig.r == OnCurve(rx) && sig.s != 0 && Verify(h.env, px, msg, sig) && Challenge(h.env, rx, px, msg) != 0
  {
    hide SignWithNonce, Digits, XOf, Verify, Challenge, SignaturePrefix;
    SignatureAt(h, o, ts, Digits(price), NB_DIGITS, i);
    SignedVerifies(h.env, o.sk, h.nonce(o.seed, ts, i), h.digitMsg(Digits(price)[i]));
    NonceX(h.nonce(o.seed, ts, i));
    VerifiedOnCurve(h.env, XOf(PublicOf(o.sk)), h.digitMsg(Digits(price)[i]),
                    Attesting(h, o, ts, price).value.signatures[i]);
  }

  lemma NonceX(k: Bytes32)
    requires 0 < k < N
    ensures NoncePoint(k) == Some(XOf(PublicOf(k)))
  {
    hide XOf;
  }

  lemma AttestedOnCurve(h: OracleHashes, o: Oracle, ts: Timestamp, price: nat)
    requires Attesting(h, o, ts, price).Some?
    ensures var att := Attesting(h, o, ts, price).value;
      att.event == ts && att.price == price && |att.signatures| == NB_DIGITS && AllOnCurve(att.signatures)
  {
    var att := Attesting(h, o, ts, price).value;
    hide SignaturePrefix, Digits;
    forall i | 0 <= i < |att.signatures|
      ensures att.signatures[i].r.OnCurve?
    {
      AttestedDigit(h, o, ts, price, i);
    }
  }

  /** The first digit on which two prices differ. */
  function FirstDifference(a: seq<Digit>, b: seq<Digit>, from: nat): (i: nat)
    requires |a| == |b| && from <= |a|
    ensures from <= i <= |a| && a[from..i] == b[from..i] && (i < |a| ==> a[i] != b[i])
    decreases |a| - from
  {
    if from == |a| || a[from] != b[from] then from else
    assert forall k :: from < k <= |a| ==>
      a[from..k] == [a[from]] + a[from + 1..k] && b[from..k] == [b[from]] + b[from + 1..k];
    FirstDifference(a, b, from + 1)
  }

  /** The consumer shares the oracle's curve and messages. */
  ghost predicate SameWorld(w: Wire, h: OracleHashes) {
    w.world.env == h.env && w.world.digitMsg == h.digitMsg
  }

  /** The challenges of the two outcomes of a digit are the same. */
  predicate Collide(h: OracleHashes, px: XOnlyKey, rx: XOnlyKey) {
    Challenge(h.env, rx, px, h.digitMsg(0)) == Challenge(h.env, rx, px, h.digitMsg(1))
  }

  lemma SameHead(w: Wire, px: XOnlyKey, a: Attestation, b: Attestation)
    requires AllOnCurve(a.signatures) && AllOnCurve(b.signatures) && a.event == b.event
      && |a.signatures| == |b.signatures| == NB_DIGITS
    ensures var ma, mb := Message(w, px, a), Message(w, px, b);
      && ma.eventId == mb.eventId == w.eventId(a.event) && ma.pubkey == mb.pubkey == w.write(px) && Parallel(ma, mb)
      && |ma.outcomes| == NB_DIGITS < 0x1_0000
  {
  }

  lemma VerdictIsScan(w: World, tlvA: bytes, tlvB: bytes, a: ParsedAttestation, b: ParsedAttestation, px: XOnlyKey)
    requires IsPrime(N) && ParseAttestation(w.utf8, tlvA) == Ok(a) && ParseAttestation(w.utf8, tlvB) == Ok(b)
    requires a.eventId == b.eventId && a.pubkey == b.pubkey && Parallel(a, b) && w.view(a.pubkey) == OnCurve(px)
    ensures Verdict(w, tlvA, tlvB) == Scan(w, a, b, px, 0)
  {
    hide IsPrime, ParseAttestation, Scan;
  }

  lemma AgreeUntil(a: ParsedAttestation, b: ParsedAttestation, da: seq<Digit>, db: seq<Digit>, i: nat)
    requires Parallel(a, b) && |a.outcomes| == |da| == |db| && i <= |da| && da[..i] == db[..i]
    requires forall k :: 0 <= k < |da| ==>
      OutcomeDigit(a.outcomes[k]) == Some(da[k]) && OutcomeDigit(b.outcomes[k]) == Some(db[k])
    ensures AgreeBefore(a, b, 0, i)
  {
    hide OutcomeDigit;
    assert forall k :: 0 <= k < i ==> da[k] == da[..i][k] && db[k] == db[..i][k];
  }

  lemma WorldIs(w: Wire, h: OracleHashes)
    requires SameWorld(w, h)
    ensures w.world.env == h.env && w.world.digitMsg == h.digitMsg
  {
  }

  lemma RawSame(w: Wire, px: XOnlyKey, a: Attestation, b: Attestation, i: nat)
    requires Faithful(w) && AllOnCurve(a.signatures) && AllOnCurve(b.signatures)
      && |a.signatures| == |b.signatures| == NB_DIGITS && i < NB_DIGITS
    requires a.signatures[i].r == b.signatures[i].r
    ensures NonceBytes(Message(w, px, a).signatures[i]) == NonceBytes(Message(w, px, b).signatures[i])
  {
    RawReads(w, a.signatures[i]);
    RawReads(w, b.signatures[i]);
    hide RawOf, SignatureOf, NonceBytes;
  }

  lemma EvenKey(env: Env, sk: SecretKey)
    ensures LiftEven(env, XOf(PublicOf(sk))).log == EvenSecret(env, sk)
  {
    EvenSecretLifts(env, sk);
    hide LiftEven, XOf, EvenSecret;
  }

  /** The judgement of a digit that was signed with one nonce both ways. */
  lemma PairJudged(w: World, h: OracleHashes, a: ParsedAttestation, b: ParsedAttestation, px: XOnlyKey, rx: XOnlyKey,
                   da: Digit, db: Digit, i: nat)
    requires Parallel(a, b) && i < |a.outcomes| && da != db && w.env == h.env && w.digitMsg == h.digitMsg
    requires OutcomeDigit(a.outcomes[i]) == Some(da) && OutcomeDigit(b.outcomes[i]) == Some(db)
    requires NonceBytes(a.signatures[i]) == NonceBytes(b.signatures[i])
    requires var sa, sb := SignatureOf(w, a.signatures[i]), SignatureOf(w, b.signatures[i]);
      && sa.r == sb.r == OnCurve(rx) && sa.s != 0 && sb.s != 0
      && Verify(w.env, px, w.digitMsg(da), sa) && Verify(w.env, px, w.digitMsg(db), sb)
      && Challenge(w.env, rx, px, w.digitMsg(da)) != 0 && Challenge(w.env, rx, px, w.digitMsg(db)) != 0
    ensures SignedBothWays(w, a, b, px, i)
    ensures Extractable(w, a, b, px, i) <==> !Collide(h, px, rx)
  {
    hide Verify, Challenge, SignatureOf, NonceBytes, OutcomeDigit;
  }

  /** An oracle that attests one event twice, as its consumers see it in the bytes: nothing to
      prove when the digits agree; otherwise a proof that names the first digit on which they
      differ and holds the oracle's secret key, unless the two challenges collide. */
  lemma OracleEquivocates(w: Wire, h: OracleHashes, seed: Seed, ts: Timestamp, priceA: nat, priceB: nat)
    requires IsPrime(N) && Faithful(w) && SameWorld(w, h) && FromSeed(h, seed).Some?
    requires Attesting(h, FromSeed(h, seed).value, ts, priceA).Some?
      && Attesting(h, FromSeed(h, seed).value, ts, priceB).Some?
    ensures var o := FromSeed(h, seed).value;
      var a, b := Attesting(h, o, ts, priceA).value, Attesting(h, o, ts, priceB).value;
      && AllOnCurve(a.signatures) && AllOnCurve(b.signatures) && Writable(Message(w, o.pubkey, a))
      && Writable(Message(w, o.pubkey, b))
      && 0 < o.sk < N
    ensures var i := FirstDifference(Digits(priceA), Digits(priceB), 0);
      i < NB_DIGITS ==> 0 < h.nonce(seed, ts, i) < N
    ensures var o := FromSeed(h, seed).value;
      var a, b := Attesting(h, o, ts, priceA).value, Attesting(h, o, ts, priceB).value;
      var i := FirstDifference(Digits(priceA), Digits(priceB), 0);
      Verdict(w.world, AttestationTlv(w, o.pubkey, a), AttestationTlv(w, o.pubkey, b)) ==
        if i == NB_DIGITS then Err(NoConflict)
        else if Collide(h, o.pubkey, XOf(PublicOf(h.nonce(seed, ts, i)))) then Err(ExtractionFailed)
        else Ok(EquivocationProof(w.eventId(ts), w.write(o.pubkey), i, EvenSecret(h.env, o.sk)))
  {
    var o := FromSeed(h, seed).value;
    var a, b := Attesting(h, o, ts, priceA).value, Attesting(h, o, ts, priceB).value;
    assert o.seed == seed && 0 < o.sk < N && o.pubkey == XOf(PublicOf(o.sk)) by { hide XOf; }
    hide *;
    AttestedOnCurve(h, o, ts, priceA);
    AttestedOnCurve(h, o, ts, priceB);
    AttestationReads(w, o.pubkey, a);
    AttestationReads(w, o.pubkey, b);
    var i := FirstDifference(Digits(priceA), Digits(priceB), 0);
    var ma, mb := Message(w, o.pubkey, a), Message(w, o.pubkey, b);
    SameHead(w, o.pubkey, a, b);
    VerdictIsScan(w.world, AttestationTlv(w, o.pubkey, a), AttestationTlv(w, o.pubkey, b), ma, mb, o.pubkey);
    AgreeUntil(ma, mb, Digits(priceA), Digits(priceB), i);
    ScanFinds(w.world, ma, mb, o.pubkey, 0, i);
    if i < NB_DIGITS {
      AttestedDigit(h, o, ts, priceA, i);
      AttestedDigit(h, o, ts, priceB, i);
      WorldIs(w, h);
      RawSame(w, o.pubkey, a, b, i);
      PairJudged(w.world, h, ma, mb, o.pubkey, XOf(PublicOf(h.nonce(seed, ts, i))), Digits(priceA)[i],
                 Digits(priceB)[i], i);
      EvenKey(h.env, o.sk);
    }
  }
}
