/** Announcements on the wire: what the oracle and the cohort serialize, and what a consumer
    reads in the bytes of an announcement and of the attestation that follows. */
module OracleMessages {
  import opened Options
  import opened Modular
  import opened Bytes
  import opened Secp
  import opened Schnorr
  import opened Event
  import opened Frost
  import opened Codec
  import opened Tlv
  import opened Equivocation
  import opened Oracle
  import opened OracleWire
  import opened Announcements

  /** `USD/BTC`. */
  const UNIT: bytes := [85, 83, 68, 47, 66, 84, 67]

  predicate AllKnown(points: seq<XBytes>) {
    forall i :: 0 <= i < |points| ==> points[i].OnCurve?
  }

  function NonceWords(w: Wire, points: seq<XBytes>): (r: seq<Word32>)
    requires AllKnown(points)
    ensures |r| == |points| && forall i :: 0 <= i < |r| ==> r[i] == w.write(points[i].key)
  {
    if |points| == 0 then [] else [w.write(points[0].key)] + NonceWords(w, points[1..])
  }

  /** Base two, unsigned, twenty digits. */
  function Descriptor(): (r: bytes)
    ensures |r| == 17
  {
    UnitFits();
    DescriptorBody(2, false, UNIT, 0, NB_DIGITS)
  }

  lemma UnitFits()
    ensures Fits(UNIT) && |VarBytes(UNIT)| == 8
  {
  }

  /** The announcement as its reader sees it; the maturity keeps 32 bits of the time. */
  function Published(w: Wire, px: XOnlyKey, ann: SignedAnnouncement): ParsedAnnouncement
    requires AllKnown(ann.body.noncePoints) && ann.sig.r.OnCurve?
  {
    ParsedAnnouncement(RawOf(w, ann.sig), w.write(px), NonceWords(w, ann.body.noncePoints),
                       ann.body.event % TWO32, w.eventId(ann.body.event))
  }

  /** The event message alone. */
  function EventTlv(w: Wire, ann: Announcement): bytes
    requires AllKnown(ann.noncePoints) && Fits(w.eventId(ann.event))
    requires Fits(EventBody(NonceWords(w, ann.noncePoints), ann.event % TWO32, Descriptor(), w.eventId(ann.event)))
  {
    TlvBytes(TYPE_ORACLE_EVENT,
             EventBody(NonceWords(w, ann.noncePoints), ann.event % TWO32, Descriptor(), w.eventId(ann.event)))
  }

  lemma ShortEvent(points: seq<Word32>, maturity: u32, descriptor: bytes, eventId: bytes)
    requires |points| <= 20 && |descriptor| == 17 && |eventId| <= 64
    ensures Fits(EventBody(points, maturity, descriptor, eventId))
    ensures |TlvBytes(TYPE_ORACLE_EVENT, EventBody(points, maturity, descriptor, eventId))| < 0x1_0000
  {
    assert |VarBytes(eventId)| <= 73 && |VarBytes(descriptor)| <= 26;
    hide VarBytes, Words, ToBE;
    assert |EventTail(descriptor, eventId)| <= 108;
    ShortTlv(EventBody(points, maturity, descriptor, eventId));
  }

  lemma ShortTlv(body: bytes)
    requires |body| < 0x8000
    ensures |TlvBytes(TYPE_ORACLE_EVENT, body)| <= |body| + 18
  {
  }

  lemma EventFits(w: Wire, ann: Announcement)
    requires Faithful(w) && AllKnown(ann.noncePoints) && |ann.noncePoints| == NB_DIGITS
    ensures Fits(w.eventId(ann.event))
    ensures Fits(EventBody(NonceWords(w, ann.noncePoints), ann.event % TWO32, Descriptor(), w.eventId(ann.event)))
  {
    assert |w.eventId(ann.event)| <= 64;
    hide EventBody, TlvBytes, DescriptorBody;
    ShortEvent(NonceWords(w, ann.noncePoints), ann.event % TWO32, Descriptor(), w.eventId(ann.event));
  }

  lemma PublishedFits(w: Wire, px: XOnlyKey, ann: SignedAnnouncement)
    requires Faithful(w) && AllKnown(ann.body.noncePoints) && |ann.body.noncePoints| == NB_DIGITS && ann.sig.r.OnCurve?
    ensures Publishable(Published(w, px, ann), Descriptor()) && w.world.utf8(Published(w, px, ann).eventId)
  {
    assert |w.eventId(ann.body.event)| <= 64 && w.world.utf8(w.eventId(ann.body.event));
    hide EventBody, TlvBytes, DescriptorBody, RawOf;
    ShortEvent(NonceWords(w, ann.body.noncePoints), ann.body.event % TWO32, Descriptor(), w.eventId(ann.body.event));
  }

  /** The descriptor, the event and, around a signature and a key, the announcement. */
  method WriteAnnounced(w: Wire, px: XOnlyKey, ann: SignedAnnouncement) returns (tlv: bytes)
    requires Faithful(w) && AllKnown(ann.body.noncePoints) && |ann.body.noncePoints| == NB_DIGITS && ann.sig.r.OnCurve?
    ensures Publishable(Published(w, px, ann), Descriptor())
    ensures tlv == AnnouncementBytes(Published(w, px, ann), Descriptor())
  {
    hide EventBody, TlvBytes, DescriptorBody, RawOf, Publishable, AnnouncementBytes, Faithful;
    PublishedFits(w, px, ann);
    var words := CollectWords(w, ann.body.noncePoints);
    UnitFits();
    var descriptor := WriteDescriptor(2, false, UNIT, 0, NB_DIGITS);
    var a := ParsedAnnouncement(RawOf(w, ann.sig), w.write(px), words, ann.body.event % TWO32,
                                w.eventId(ann.body.event));
    tlv := WriteAnnouncement(a, descriptor);
  }

  method CollectWords(w: Wire, points: seq<XBytes>) returns (words: seq<Word32>)
    requires AllKnown(points)
    ensures words == NonceWords(w, points)
  {
    words := [];
    for i := 0 to |points|
      invariant |words| == i && forall k :: 0 <= k < i ==> words[k] == w.write(points[k].key)
    {
      words := words + [w.write(points[i].key)];
    }
  }

  /** What the cohort publishes is the event alone. */
  method WriteCohortEvent(w: Wire, ann: Announcement) returns (tlv: bytes)
    requires Faithful(w) && AllKnown(ann.noncePoints) && |ann.noncePoints| == NB_DIGITS
    ensures Fits(w.eventId(ann.event))
    ensures Fits(EventBody(NonceWords(w, ann.noncePoints), ann.event % TWO32, Descriptor(), w.eventId(ann.event)))
    ensures tlv == EventTlv(w, ann)
  {
    hide EventBody, TlvBytes, DescriptorBody, Faithful;
    EventFits(w, ann);
    var words := CollectWords(w, ann.noncePoints);
    UnitFits();
    var descriptor := WriteDescriptor(2, false, UNIT, 0, NB_DIGITS);
    var body := WriteEvent(words, ann.event % TWO32, descriptor, w.eventId(ann.event));
    tlv := WriteTlv(TYPE_ORACLE_EVENT, body);
  }

  // ----------------------------------------------------------- what is announced

  lemma {:induction false} PointsKnown(h: OracleHashes, seed: Seed, ts: Timestamp, k: nat)
    requires PointPrefix(h, seed, ts, k).Some?
    ensures AllKnown(PointPrefix(h, seed, ts, k).value)
  {
    hide NoncePoint;
    if k > 0 { PointsKnown(h, seed, ts, k - 1); }
  }

  lemma AnnouncedKnown(h: OracleHashes, o: Oracle, ts: Timestamp)
    requires Announcing(h, o, ts).Some?
    ensures var ann := Announcing(h, o, ts).value;
      && ann.body.event == ts && |ann.body.noncePoints| == NB_DIGITS && AllKnown(ann.body.noncePoints)
      && ann.sig.r.OnCurve?
  {
    PointsKnown(h, o.seed, ts, NB_DIGITS);
    var points := PointPrefix(h, o.seed, ts, NB_DIGITS).value;
    hide SignWithNonce, PointPrefix, AllKnown;
    SignedOnCurve(h.env, o.sk, h.announcementNonce(o.seed, ts), h.announcementMsg(ts, points));
  }

  /** The oracle's announcement with its bytes. */
  method AnnounceOnWire(w: Wire, h: OracleHashes, o: Oracle, ts: Timestamp)
      returns (r: Option<(SignedAnnouncement, bytes)>)
    requires Faithful(w)
    ensures r.None? <==> Announcing(h, o, ts).None?
    ensures r.Some? ==>
      && Announcing(h, o, ts) == Some(r.value.0)
      && AllKnown(r.value.0.body.noncePoints) && r.value.0.sig.r.OnCurve?
      && Publishable(Published(w, o.pubkey, r.value.0), Descriptor())
      && r.value.1 == AnnouncementBytes(Published(w, o.pubkey, r.value.0), Descriptor())
  {
    hide Announcing, Faithful, Publishable, Published, AnnouncementBytes;
    var ann := Announce(h, o, ts);
    if ann.None? { return None; }
    AnnouncedKnown(h, o, ts);
    var tlv := WriteAnnounced(w, o.pubkey, ann.value);
    r := Some((ann.value, tlv));
  }

  /** The oracle's attestation with its bytes. */
  method AttestOnWire(w: Wire, h: OracleHashes, o: Oracle, ts: Timestamp, price: nat)
      returns (r: Option<(Attestation, bytes)>)
    requires Faithful(w)
    ensures r.None? <==> Attesting(h, o, ts, price).None?
    ensures r.Some? ==>
      && Attesting(h, o, ts, price) == Some(r.value.0)
      && AllOnCurve(r.value.0.signatures) && Writable(Message(w, o.pubkey, r.value.0))
      && r.value.1 == AttestationTlv(w, o.pubkey, r.value.0)
  {
    hide Attesting, Faithful, Writable, Message, AttestationTlv;
    var att := Attest(h, o, ts, price);
    if att.None? { return None; }
    AttestedOnCurve(h, o, ts, price);
    MessageWritable(w, o.pubkey, att.value);
    var tlv := SerializeAttestation(w, o.pubkey, att.value);
    r := Some((att.value, tlv));
  }

  // --------------------------------------------------------------- what is read

  /** The consumer reads from the bytes what was announced: the key, the signature, every
      nonce point, the name of the event and the low 32 bits of its time. */
  lemma AnnouncementReads(w: Wire, px: XOnlyKey, ann: SignedAnnouncement)
    requires Faithful(w) && AllKnown(ann.body.noncePoints) && |ann.body.noncePoints| == NB_DIGITS && ann.sig.r.OnCurve?
    ensures Publishable(Published(w, px, ann), Descriptor())
    ensures var a := Published(w, px, ann);
      && ParseAnnouncement(w.world.utf8, AnnouncementBytes(a, Descriptor())) == Ok(a)
      && w.world.view(a.pubkey) == OnCurve(px) && SignatureOf(w.world, a.sig) == ann.sig
      && |a.points| == NB_DIGITS && forall i :: 0 <= i < NB_DIGITS ==>
        w.world.view(a.points[i]) == ann.body.noncePoints[i]
  {
    PublishedFits(w, px, ann);
    RawReads(w, ann.sig);
    var a := Published(w, px, ann);
    forall i | 0 <= i < NB_DIGITS
      ensures w.world.view(a.points[i]) == ann.body.noncePoints[i]
    {
      assert w.world.view(w.write(ann.body.noncePoints[i].key)) == OnCurve(ann.body.noncePoints[i].key);
    }
    assert w.world.view(w.write(px)) == OnCurve(px);
    hide Publishable, AnnouncementBytes, ParseAnnouncement, RawOf, SignatureOf, Descriptor;
    AnnouncementRoundTrip(w.world.utf8, a, Descriptor());
  }

  /** The cohort's bytes are an event, which the announcement parser refuses. */
  lemma CohortEventRefused(w: Wire, ann: Announcement)
    requires Faithful(w) && AllKnown(ann.noncePoints) && |ann.noncePoints| == NB_DIGITS
    ensures Fits(w.eventId(ann.event))
    ensures Fits(EventBody(NonceWords(w, ann.noncePoints), ann.event % TWO32, Descriptor(), w.eventId(ann.event)))
    ensures ParseAnnouncement(w.world.utf8, EventTlv(w, ann)) == Err(WrongType(TYPE_ORACLE_EVENT))
  {
    EventFits(w, ann);
    hide EventBody, VarBytes, Descriptor, ReadBigSize, ReadVarBytes, BigSizeBytes, ParseOuter;
    var body := EventBody(NonceWords(w, ann.noncePoints), ann.event % TWO32, Descriptor(), w.eventId(ann.event));
    BigSizeRoundTrip(TYPE_ORACLE_EVENT, VarBytes(body));
  }

  /** The digit, the signature and the announced nonce that are read at one position. */
  ghost predicate ReadDigit(w: World, px: XOnlyKey, point: Word32, m: ParsedAttestation, d: Digit, i: nat) {
    && i < |m.signatures| && i < |m.outcomes|
    && OutcomeDigit(m.outcomes[i]) == Some(d)
    && NonceBytes(m.signatures[i]) == point
    && Verify(w.env, px, w.digitMsg(d), SignatureOf(w, m.signatures[i]))
  }

  /** End to end over bytes: an oracle that announced an event and then attested it left two
      messages with one key and one event, both parse, the announcement is signed, and every
      signature read from the second is valid on the digit read beside it and begins with the
      nonce point read from the first. */
  lemma PublishedAnswers(w: Wire, h: OracleHashes, seed: Seed, ts: Timestamp, price: nat)
    requires Faithful(w) && SameWorld(w, h) && FromSeed(h, seed).Some?
    requires Announcing(h, FromSeed(h, seed).value, ts).Some? && Attesting(h, FromSeed(h, seed).value, ts, price).Some?
    ensures var o := FromSeed(h, seed).value;
      var ann, att := Announcing(h, o, ts).value, Attesting(h, o, ts, price).value;
      && AllKnown(ann.body.noncePoints) && ann.sig.r.OnCurve? && Publishable(Published(w, o.pubkey, ann), Descriptor())
      && AllOnCurve(att.signatures) && |att.signatures| == NB_DIGITS && Writable(Message(w, o.pubkey, att))
    ensures var o := FromSeed(h, seed).value;
      var ann, att := Announcing(h, o, ts).value, Attesting(h, o, ts, price).value;
      var a, m := Published(w, o.pubkey, ann), Message(w, o.pubkey, att);
      && ParseAnnouncement(w.world.utf8, AnnouncementBytes(a, Descriptor())) == Ok(a)
      && ParseAttestation(w.world.utf8, AttestationTlv(w, o.pubkey, att)) == Ok(m)
      && a.pubkey == m.pubkey && a.eventId == m.eventId && w.world.view(a.pubkey) == OnCurve(o.pubkey)
      && Verify(h.env, o.pubkey, h.announcementMsg(ts, ann.body.noncePoints), SignatureOf(w.world, a.sig))
      && |a.points| == NB_DIGITS
      && forall i :: 0 <= i < NB_DIGITS ==> ReadDigit(w.world, o.pubkey, a.points[i], m, Digits(price)[i], i)
  {
    var o := FromSeed(h, seed).value;
    var ann, att := Announcing(h, o, ts).value, Attesting(h, o, ts, price).value;
    hide *;
    AnnouncedKnown(h, o, ts);
    AttestedOnCurve(h, o, ts, price);
    AnnouncementReads(w, o.pubkey, ann);
    AttestationReads(w, o.pubkey, att);
    OracleAnswers(h, seed, ts, price);
    SameNames(w, o.pubkey, ann, att);
    WorldIs(w, h);
    forall i | 0 <= i < NB_DIGITS
      ensures ReadDigit(w.world, o.pubkey, Published(w, o.pubkey, ann).points[i], Message(w, o.pubkey, att),
                        Digits(price)[i], i)
    {
      DigitReads(w, o.pubkey, ann.body, att, i);
      WordAt(w, o.pubkey, ann, i);
    }
  }

  lemma SameNames(w: Wire, px: XOnlyKey, ann: SignedAnnouncement, att: Attestation)
    requires AllKnown(ann.body.noncePoints) && ann.sig.r.OnCurve? && AllOnCurve(att.signatures)
      && ann.body.event == att.event
    ensures Published(w, px, ann).pubkey == Message(w, px, att).pubkey
    ensures Published(w, px, ann).eventId == Message(w, px, att).eventId
  {
    hide RawOf, NonceWords;
  }

  lemma WordAt(w: Wire, px: XOnlyKey, ann: SignedAnnouncement, i: nat)
    requires AllKnown(ann.body.noncePoints) && ann.sig.r.OnCurve? && i < |ann.body.noncePoints|
    ensures i < |Published(w, px, ann).points| && ann.body.noncePoints[i].OnCurve?
    ensures Published(w, px, ann).points[i] == w.write(ann.body.noncePoints[i].key)
  {
    hide RawOf;
  }

  lemma DigitReads(w: Wire, px: XOnlyKey, ann: Announcement, att: Attestation, i: nat)
    requires Faithful(w) && AllOnCurve(att.signatures)
    requires Answers(w.world.env, w.world.digitMsg, px, ann, att) && i < NB_DIGITS
    ensures i < |ann.noncePoints| && ann.noncePoints[i].OnCurve?
    ensures ReadDigit(w.world, px, w.write(ann.noncePoints[i].key), Message(w, px, att), Digits(att.price)[i], i)
  {
    assert AnswersDigit(w.world.env, w.world.digitMsg, px, ann, att, i);
    RawReads(w, att.signatures[i]);
    OutcomeReads(Digits(att.price)[i]);
    hide Verify, RawOf, SignatureOf, NonceBytes, Digits, OutcomeDigit;
  }

  // ------------------------------------------------------------------ the cohort

  lemma {:induction false} CohortPointsKnown(h: Hashes, ts: Timestamp, quorum: seq<u16>, cs: seq<NonceCommitment>,
                                             k: nat)
    requires NoncePoints(h, ts, quorum, cs, k).Ok?
    ensures AllKnown(NoncePoints(h, ts, quorum, cs, k).value)
  {
    hide NonceSession, QuorumCommitments;
    if k > 0 { CohortPointsKnown(h, ts, quorum, cs, k - 1); }
  }

  lemma {:induction false} CohortSignaturesKnown(h: Hashes, ts: Timestamp, quorum: seq<u16>, cs: seq<NonceCommitment>,
                                                 shares: seq<SigShare>, k: nat)
    requires AggregatePrefix(h, ts, quorum, cs, shares, k).Ok?
    ensures AllOnCurve(AggregatePrefix(h, ts, quorum, cs, shares, k).value)
  {
    hide NonceSession, QuorumCommitments, SumShares;
    if k > 0 { CohortSignaturesKnown(h, ts, quorum, cs, shares, k - 1); }
  }

  lemma AggregateKnown(h: Hashes, ts: Timestamp, price: nat, quorum: seq<u16>, cs: seq<NonceCommitment>,
                       shares: seq<SigShare>)
    requires AggregateAttestation(h, ts, price, quorum, cs, shares).Ok?
    ensures var att := AggregateAttestation(h, ts, price, quorum, cs, shares).value;
      && att.event == ts && att.price == price && |att.signatures| == NB_DIGITS && AllOnCurve(att.signatures)
  {
    CohortSignaturesKnown(h, ts, quorum, cs, shares, NB_DIGITS);
    hide AggregatePrefix;
  }

  lemma EventKnown(h: Hashes, ts: Timestamp, quorum: seq<u16>, cs: seq<NonceCommitment>)
    requires AggregateAnnouncement(h, ts, quorum, cs).Ok?
    ensures var ann := AggregateAnnouncement(h, ts, quorum, cs).value;
      ann.event == ts && |ann.noncePoints| == NB_DIGITS && AllKnown(ann.noncePoints)
  {
    CohortPointsKnown(h, ts, quorum, cs, NB_DIGITS);
    hide NoncePoints;
  }

  /** The quorum's announcement with its bytes. */
  method AggregateEventOnWire(w: Wire, h: Hashes, ts: Timestamp, quorum: seq<u16>, cs: seq<NonceCommitment>)
      returns (r: Result<(Announcement, bytes), FrostError>)
    requires Faithful(w)
    ensures r.Err? ==> AggregateAnnouncement(h, ts, quorum, cs) == Err(r.error)
    ensures r.Ok? ==>
      && AggregateAnnouncement(h, ts, quorum, cs) == Ok(r.value.0)
      && AllKnown(r.value.0.noncePoints) && Fits(w.eventId(ts))
      && Fits(EventBody(NonceWords(w, r.value.0.noncePoints), ts % TWO32, Descriptor(), w.eventId(ts)))
      && r.value.0.event == ts && r.value.1 == EventTlv(w, r.value.0)
  {
    hide AggregateAnnouncement, Faithful, EventBody, EventTlv;
    var ann := ComputeAnnouncement(h, ts, quorum, cs);
    if ann.Err? { return Err(ann.error); }
    EventKnown(h, ts, quorum, cs);
    var tlv := WriteCohortEvent(w, ann.value);
    r := Ok((ann.value, tlv));
  }

  /** The quorum's attestation with its bytes. */
  method AggregateOnWire(w: Wire, h: Hashes, px: XOnlyKey, ts: Timestamp, price: nat, quorum: seq<u16>,
                         cs: seq<NonceCommitment>, shares: seq<SigShare>)
      returns (r: Result<(Attestation, bytes), FrostError>)
    requires Faithful(w)
    ensures r.Err? ==> AggregateAttestation(h, ts, price, quorum, cs, shares) == Err(r.error)
    ensures r.Ok? ==>
      && AggregateAttestation(h, ts, price, quorum, cs, shares) == Ok(r.value.0)
      && AllOnCurve(r.value.0.signatures) && Writable(Message(w, px, r.value.0))
      && r.value.1 == AttestationTlv(w, px, r.value.0)
  {
    hide AggregateAttestation, Faithful, Writable, Message, AttestationTlv;
    var att := ComputeAttestation(h, ts, price, quorum, cs, shares);
    if att.Err? { return Err(att.error); }
    AggregateKnown(h, ts, price, quorum, cs, shares);
    MessageWritable(w, px, att.value);
    var tlv := SerializeAttestation(w, px, att.value);
    r := Ok((att.value, tlv));
  }

  lemma AttestKnown(h: Hashes, c: FrostCohort.Cohort, ts: Timestamp, price: nat, q: seq<u16>)
    requires IsPrime(N) && FrostCohort.Attest(h, c, ts, price, q).Ok?
    ensures var att := FrostCohort.Attest(h, c, ts, price, q).value;
      && att.event == ts && att.price == price && |att.signatures| == NB_DIGITS && AllOnCurve(att.signatures)
  {
    hide AggregateAttestation, FrostCohort.PartialsOf, FrostCohort.QuorumSigners, FrostCohort.Commitments, IsPrime;
    var signers := FrostCohort.QuorumSigners(c, q).value;
    var cs := FrostCohort.Commitments(h, signers, ts);
    AggregateKnown(h, ts, price, q, cs, FrostCohort.PartialsOf(h, signers, ts, price, q, cs, |signers|).value);
  }

  /** The same over the bytes of a keyed quorum: they parse, and every signature read is valid
      under the group key on the digit read beside it and begins with the aggregate nonce that
      the quorum announced. */
  lemma CohortPublishes(w: Wire, h: Hashes, c: FrostCohort.Cohort, poly: seq<int>, ts: Timestamp, price: nat,
                        q: seq<u16>)
    requires IsPrime(N) && Faithful(w) && w.world.env == h.env && w.world.digitMsg == h.digitMsg
      && FrostCohort.Keyed(h, c, poly)
    requires FrostCohort.Attest(h, c, ts, price, q).Ok?
    ensures FrostCohort.Announce(h, c, ts, q).Ok?
    ensures var ann, att := FrostCohort.Announce(h, c, ts, q).value, FrostCohort.Attest(h, c, ts, price, q).value;
      && AllOnCurve(att.signatures) && |att.signatures| == NB_DIGITS && Writable(Message(w, c.groupPubkey, att))
      && ParseAttestation(w.world.utf8, AttestationTlv(w, c.groupPubkey, att)) == Ok(Message(w, c.groupPubkey, att))
      && forall i :: 0 <= i < NB_DIGITS ==>
        CohortDigit(w, c.groupPubkey, ann, Message(w, c.groupPubkey, att), Digits(price)[i], i)
  {
    hide *;
    AttestKnown(h, c, ts, price, q);
    CohortAnswers(h, c, poly, ts, price, q);
    var ann, att := FrostCohort.Announce(h, c, ts, q).value, FrostCohort.Attest(h, c, ts, price, q).value;
    AttestationReads(w, c.groupPubkey, att);
    forall i | 0 <= i < NB_DIGITS
      ensures CohortDigit(w, c.groupPubkey, ann, Message(w, c.groupPubkey, att), Digits(price)[i], i)
    {
      DigitReads(w, c.groupPubkey, ann, att, i);
      CohortDigitIs(w, c.groupPubkey, ann, Message(w, c.groupPubkey, att), Digits(price)[i], i);
    }
  }

  ghost predicate CohortDigit(w: Wire, px: XOnlyKey, ann: Announcement, m: ParsedAttestation, d: Digit, i: nat) {
    && i < |ann.noncePoints| && ann.noncePoints[i].OnCurve?
    && ReadDigit(w.world, px, w.write(ann.noncePoints[i].key), m, d, i)
  }

  lemma CohortDigitIs(w: Wire, px: XOnlyKey, ann: Announcement, m: ParsedAttestation, d: Digit, i: nat)
    requires i < |ann.noncePoints| && ann.noncePoints[i].OnCurve?
    requires ReadDigit(w.world, px, w.write(ann.noncePoints[i].key), m, d, i)
    ensures CohortDigit(w, px, ann, m, d, i)
  {
    hide ReadDigit;
  }
}
