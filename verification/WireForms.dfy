/** The wire formats byte by byte: which bytes stand where, in numbers, so that a reader in
    another language can be checked against them. */
module WireForms {
  import opened Options
  import opened Bytes
  import opened Secp
  import opened Event
  import opened Codec
  import opened Tlv
  import opened Announcements
  import opened Frost
  import opened Oracle
  import opened OracleWire
  import opened OracleMessages
  import ProofFile
  import LiveDa

  // ---------------------------------------------------------------------- numbers

  /** Where the BigSize forms begin and end. */
  lemma BigSizeBoundaries()
    ensures BigSizeBytes(0) == [0x00] && BigSizeBytes(0xfc) == [0xfc]
    ensures BigSizeBytes(0xfd) == [0xfd, 0x00, 0xfd] && BigSizeBytes(0xffff) == [0xfd, 0xff, 0xff]
    ensures BigSizeBytes(0x1_0000) == [0xfe, 0x00, 0x01, 0x00, 0x00]
    ensures BigSizeBytes(0xffff_ffff) == [0xfe, 0xff, 0xff, 0xff, 0xff]
    ensures BigSizeBytes(0x1_0000_0000) == [0xff, 0x00, 0x00, 0x00, 0x01, 0x00, 0x00, 0x00, 0x00]
  {
    FourBytes(0, 1, 0, 0);
    FourBytes(0xff, 0xff, 0xff, 0xff);
    FourBytes(0, 0, 0, 1);
    TwoBytes(0, 0xfd);
    TwoBytes(0xff, 0xff);
    EightBytes(1, 0, 0, 0, 0);
    hide ToBE;
  }

  /** Integers are big-endian. */
  lemma TwoBytes(a: Byte, b: Byte)
    ensures ToBE(0x100 * a + b, 2) == [a, b]
  {
    var v := 0x100 * a + b;
    assert v / 256 == a && v % 256 == b;
    assert ToBE(a, 1) == ToBE(a / 256, 0) + [a % 256] == [a];
    assert ToBE(v, 2) == ToBE(v / 256, 1) + [v % 256];
  }

  lemma FourBytes(a: Byte, b: Byte, c: Byte, d: Byte)
    ensures ToBE(0x100_0000 * a + 0x1_0000 * b + 0x100 * c + d, 4) == [a, b, c, d]
  {
    var v := 0x100_0000 * a + 0x1_0000 * b + 0x100 * c + d;
    TwoBytes(a, b);
    assert v / 256 == 0x1_0000 * a + 0x100 * b + c && v % 256 == d;
    assert v / 256 / 256 == 0x100 * a + b && v / 256 % 256 == c;
    ToBEStep(v, 4);
    ToBEStep(v / 256, 3);
    hide ToBE;
  }

  lemma ToBEStep(v: nat, n: nat)
    requires n > 0
    ensures ToBE(v, n) == ToBE(v / 256, n - 1) + [v % 256]
  {
  }

  lemma EightBytes(high: u32, a: Byte, b: Byte, c: Byte, d: Byte)
    ensures ToBE(0x1_0000_0000 * high + (0x100_0000 * a + 0x1_0000 * b + 0x100 * c + d), 8) ==
      ToBE(high, 4) + [a, b, c, d]
  {
    var v := 0x1_0000_0000 * high + (0x100_0000 * a + 0x1_0000 * b + 0x100 * c + d);
    hide ToBE;
    assert v / 256 == 0x100_0000 * high + (0x1_0000 * a + 0x100 * b + c) && v % 256 == d;
    assert v / 256 / 256 == 0x1_0000 * high + (0x100 * a + b) && v / 256 % 256 == c;
    assert v / 256 / 256 / 256 == 0x100 * high + a && v / 256 / 256 % 256 == b;
    assert v / 256 / 256 / 256 / 256 == high && v / 256 / 256 / 256 % 256 == a;
    ToBEStep(v, 8);
    ToBEStep(v / 256, 7);
    ToBEStep(v / 256 / 256, 6);
    ToBEStep(v / 256 / 256 / 256, 5);
  }

  // --------------------------------------------------------------------- the oracle

  /** The types of the oracle's messages, as they appear in front of their lengths. */
  lemma MessageTypes()
    ensures BigSizeBytes(TYPE_ORACLE_ATTESTATION) == [0xfd, 0xd8, 0x68]
    ensures BigSizeBytes(TYPE_ORACLE_ANNOUNCEMENT) == [0xfd, 0xd8, 0x24]
    ensures BigSizeBytes(TYPE_ORACLE_EVENT) == [0xfd, 0xd8, 0x22]
    ensures BigSizeBytes(TYPE_DESCRIPTOR) == [0xfd, 0xd8, 0x0a]
  {
    TwoBytes(0xd8, 0x68);
    TwoBytes(0xd8, 0x24);
    TwoBytes(0xd8, 0x22);
    TwoBytes(0xd8, 0x0a);
    hide ToBE;
  }

  lemma {:induction false} FlatAt(sigs: seq<Sig64>, i: nat)
    requires i < |sigs|
    ensures Flat(sigs)[64 * i..64 * i + 64] == sigs[i]
  {
    if i > 0 { FlatAt(sigs[1..], i - 1); }
  }

  /** An attestation: its type, its length, and in its body the event's name, the key, the
      count, the signatures and the outcomes. */
  lemma AttestationLayout(a: ParsedAttestation, i: nat)
    requires Writable(a) && i < |a.signatures|
    ensures AttestationBytes(a) == [0xfd, 0xd8, 0x68] + BigSizeBytes(|Body(a)|) + Body(a)
    ensures var name := VarBytes(a.eventId);
      var rest := Body(a)[|name|..];
      && |Body(a)| >= |name| && Body(a)[..|name|] == name
      && |rest| >= 34 + 64 * |a.signatures| && rest[..32] == a.pubkey
      && rest[32..34] == ToBE(|a.signatures| % 0x1_0000, 2)
      && rest[34 + 64 * i..34 + 64 * i + 64] == a.signatures[i]
      && rest[34 + 64 * |a.signatures|..] == Strings(a.outcomes)
  {
    MessageTypes();
    hide VarBytes, Strings, ToBE, Flat, BigSizeBytes;
    FlatAt(a.signatures, i);
    var name := VarBytes(a.eventId);
    assert Body(a)[|name|..] == a.pubkey + Lists(a.signatures, a.outcomes);
    assert AttestationBytes(a) == [0xfd, 0xd8, 0x68] + VarBytes(Body(a));
    LengthFirst(Body(a));
  }

  lemma LengthFirst(s: bytes)
    requires Fits(s)
    ensures VarBytes(s) == BigSizeBytes(|s|) + s
  {
  }

  lemma {:induction false} WordAt(words: seq<Word32>, i: nat)
    requires i < |words|
    ensures Words(words)[32 * i..32 * i + 32] == words[i]
  {
    if i > 0 { WordAt(words[1..], i - 1); }
  }

  /** An event: the count, the nonce points, the maturity, the descriptor and the name. */
  lemma EventLayout(points: seq<Word32>, maturity: u32, descriptor: bytes, eventId: bytes, i: nat)
    requires Fits(descriptor) && Fits(eventId) && i < |points|
    ensures var e, n := EventBody(points, maturity, descriptor, eventId), 32 * |points|;
      && |e| >= n + 6 && e[..2] == ToBE(|points| % 0x1_0000, 2) && e[2 + 32 * i..2 + 32 * i + 32] == points[i]
      && e[n + 2..n + 6] == ToBE(maturity, 4)
      && e[n + 6..] == [0xfd, 0xd8, 0x0a] + BigSizeBytes(|descriptor|) + descriptor + VarBytes(eventId)
  {
    MessageTypes();
    hide VarBytes, ToBE, Words, BigSizeBytes;
    WordAt(points, i);
    LengthFirst(descriptor);
  }

  /** An announcement: its type, its length, the signature, the key and the event. */
  lemma AnnouncementLayout(a: ParsedAnnouncement, descriptor: bytes)
    requires Publishable(a, descriptor)
    ensures var event := EventBody(a.points, a.maturity, descriptor, a.eventId);
      var body := OuterBody(a, descriptor);
      && AnnouncementBytes(a, descriptor) == [0xfd, 0xd8, 0x24] + BigSizeBytes(|body|) + body
      && body == a.sig + a.pubkey + [0xfd, 0xd8, 0x22] + BigSizeBytes(|event|) + event
  {
    MessageTypes();
    hide EventBody, BigSizeBytes;
  }

  /** The descriptor in every announcement: base 2, unsigned, `USD/BTC`, precision 0, 20 digits. */
  lemma DescriptorLayout()
    ensures Descriptor() == [0, 2, 0, 7, 85, 83, 68, 47, 66, 84, 67, 0, 0, 0, 0, 0, 20]
  {
    TwoBytes(0, 2);
    TwoBytes(0, 20);
    FourBytes(0, 0, 0, 0);
    hide ToBE;
    assert VarBytes(UNIT) == [7, 85, 83, 68, 47, 66, 84, 67];
  }

  /** What an oracle's announcement says: its key, the event's name, the time in 32 bits as
      maturity, and for every digit the point of the nonce derived for it. */
  lemma AnnouncedForm(w: Wire, h: OracleHashes, seed: Seed, ts: Timestamp)
    requires FromSeed(h, seed).Some? && Announcing(h, FromSeed(h, seed).value, ts).Some?
    ensures var o := FromSeed(h, seed).value;
      var ann := Announcing(h, o, ts).value;
      && AllKnown(ann.body.noncePoints) && ann.sig.r.OnCurve?
      && var a := Published(w, o.pubkey, ann);
      && a.pubkey == w.write(o.pubkey) && a.eventId == w.eventId(ts) && a.maturity == ts % 0x1_0000_0000
      && |a.points| == 20
      && forall i :: 0 <= i < 20 ==>
        0 < h.nonce(seed, ts, i) < N && a.points[i] == w.write(XOf(PublicOf(h.nonce(seed, ts, i))))
  {
    hide XOf, Announcing, RawOf;
    FromSeedIff(h, seed);
    AnnouncementNonces(h, FromSeed(h, seed).value, ts);
  }

  /** What an attestation says: the key, the event's name, and the digits as characters. */
  lemma AttestedForm(w: Wire, px: XOnlyKey, att: Attestation)
    requires AllOnCurve(att.signatures)
    ensures var m := Message(w, px, att);
      && m.pubkey == w.write(px) && m.eventId == w.eventId(att.event)
      && |m.signatures| == |att.signatures| && |m.outcomes| == 20
      && forall i :: 0 <= i < 20 ==> m.outcomes[i] == if Digits(att.price)[i] == 0 then [48] else [49]
  {
    hide Digits, RawOf;
  }

  // -------------------------------------------------------- the data-availability bundle

  /** A bundle: eight bytes of ASCII, the version, then claim, epoch, root and size, each at
      its offset, and the sections from offset 85. */
  lemma BundleLayout(sha: LiveDa.Digest, b: LiveDa.Bundle)
    ensures var s := LiveDa.Encoded(sha, b);
      && |s| >= 85 && s[..9] == [0x53, 0x55, 0x53, 0x44, 0x44, 0x41, 0x30, 0x31, 1]
      && s[9..41] == b.claimId && s[41..49] == ToBE(b.stateEpoch, 8)
      && s[49..81] == LiveDa.RootOf(sha, b.sections)
      && s[81..85] == ToBE((|s| - 85) % 0x1_0000_0000, 4) && s[85..] == LiveDa.SectionsWire(b.sections)
  {
    hide ToBE, LiveDa.RootOf, LiveDa.SectionsWire;
  }

  /** Which refusal a reader gives, in this order: too short, not a bundle, another version, not
      the declared size. */
  lemma BundleRefusals(data: bytes)
    ensures |data| < 85 ==> LiveDa.Decoded(data) == Err(LiveDa.Truncated)
    ensures |data| >= 85 ==>
      var magic, size := data[..8] == [0x53, 0x55, 0x53, 0x44, 0x44, 0x41, 0x30, 0x31], BE(data[81..85]);
      && (!magic ==> LiveDa.Decoded(data) == Err(LiveDa.BadMagic))
      && (magic && data[8] != 1 ==> LiveDa.Decoded(data) == Err(LiveDa.UnsupportedVersion(data[8])))
      && (magic && data[8] == 1 && |data| - 85 != size ==> LiveDa.Decoded(data) == Err(LiveDa.SizeMismatch))
      && (magic && data[8] == 1 && |data| - 85 == size ==>
           (LiveDa.Decoded(data).Ok? <==> LiveDa.DecodedSections(data[85..]).Ok?))
  {
    hide BE, LiveDa.DecodedSections;
  }

  /** A section: its id, its size in 32 bits, its content; a bundle's sections one by one, and
      the root over the digests of each. */
  lemma SectionLayout(sha: LiveDa.Digest, s: LiveDa.Section, rest: seq<LiveDa.Section>)
    ensures LiveDa.SectionsWire([]) == [] && LiveDa.RootOf(sha, []) == sha([])
    ensures LiveDa.SectionsWire([s] + rest) ==
      [s.id] + ToBE(|s.content| % 0x1_0000_0000, 4) + s.content + LiveDa.SectionsWire(rest)
    ensures LiveDa.RootOf(sha, [s]) == sha(sha([s.id] + ToBE(|s.content| % 0x1_0000_0000, 4) + s.content))
    ensures LiveDa.Digests(sha, [s] + rest) == LiveDa.Digests(sha, [s]) + LiveDa.Digests(sha, rest)
  {
    assert ([s] + rest)[1..] == rest && [s][1..] == [];
    hide ToBE;
    var wire := [s.id] + ToBE(|s.content| % 0x1_0000_0000, 4) + s.content;
    assert LiveDa.Wire(s) == wire && sha(wire) + [] == sha(wire);
    assert LiveDa.Digests(sha, [s]) == sha(wire) + LiveDa.Digests(sha, [s][1..]);
  }

  // ------------------------------------------------------------------- proof files

  /** A proof file: magic, version, count, and for every proof its length, its bytes and the
      hash over the link before it and the proof. */
  lemma FileLayout(sha: ProofFile.Digest, version: u32, proofs: seq<ProofFile.Blob>)
    requires ProofFile.Countable(proofs)
    ensures ProofFile.FileBytes(sha, version, proofs) ==
      [0x54, 0x41, 0x50, 0x46] + ToBE(version, 4) + BigSizeBytes(|proofs|)
        + ProofFile.Links(sha, seq(32, _ => 0), proofs)
  {
    hide ToBE, BigSizeBytes, ProofFile.Links;
    assert seq<Byte>(32, _ => 0) == ProofFile.GENESIS;
  }

  lemma LinkLayout(sha: ProofFile.Digest, prev: ProofFile.Word, p: ProofFile.Blob, rest: seq<ProofFile.Blob>)
    ensures ProofFile.Links(sha, prev, []) == []
    ensures ProofFile.Links(sha, prev, [p] + rest) ==
      BigSizeBytes(|p|) + p + sha(prev + p) + ProofFile.Links(sha, sha(prev + p), rest)
  {
    assert ([p] + rest)[1..] == rest;
    hide BigSizeBytes;
  }

  /** A single proof: magic, then records of a type, a length and a value. */
  lemma RecordLayout(r: ProofFile.Record)
    ensures ProofFile.PROOF_MAGIC == [0x54, 0x41, 0x50, 0x50]
    ensures ProofFile.RecordsBytes([r]) == BigSizeBytes(r.kind) + BigSizeBytes(|r.value|) + r.value
    ensures ProofFile.Encoded([r]) == [0x54, 0x41, 0x50, 0x50] + ProofFile.RecordsBytes([r])
  {
    hide BigSizeBytes;
  }
}
