/** Equivocation evidence: two attestations of one event that sign one digit two ways. */
module Equivocation {
  import opened Options
  import opened Modular
  import opened Bytes
  import opened Secp
  import opened Extraction
  import opened Event
  import opened Codec
  import opened Tlv

  datatype EquivocationProof = EquivocationProof(eventId: bytes, pubkey: Word32, digitIndex: nat, secret: SecretKey)

  datatype EquivocationError =
    Parse(error: ParseError) | NotComparable | NoConflict | BadOutcome | BadSignature | ExtractionFailed

  /** What the library makes of strings and curve points. */
  datatype World = World(env: Env, utf8: Utf8, view: Word32 -> XBytes, digitMsg: Digit -> Bytes32)

  function OutcomeDigit(s: bytes): Option<Digit> {
    if s == [48] then Some(0) else if s == [49] then Some(1) else None
  }

  function NonceBytes(raw: Sig64): Word32 {
    raw[..32]
  }

  function SignatureOf(w: World, raw: Sig64): Signature {
    BEBound(raw[32..]);
    Pow256Of32();
    Signature(w.view(NonceBytes(raw)), BE(raw[32..]))
  }

  /** The check of one digit that is attested both ways. */
  ghost function Judge(w: World, a: ParsedAttestation, b: ParsedAttestation, px: XOnlyKey, i: nat, da: Digit,
                       db: Digit): Result<EquivocationProof, EquivocationError>
    requires IsPrime(N) && i < |a.signatures| && i < |b.signatures|
  {
    var sa, sb := SignatureOf(w, a.signatures[i]), SignatureOf(w, b.signatures[i]);
    var ma, mb := w.digitMsg(da), w.digitMsg(db);
    if !Verify(w.env, px, ma, sa) || !Verify(w.env, px, mb, sb) then Err(BadSignature)
    else if NonceBytes(a.signatures[i]) != NonceBytes(b.signatures[i]) then Err(BadSignature)
    else
      var d := Extracted(w.env, sa, sb, ma, mb, px);
      if d.None? then Err(ExtractionFailed)
      else Ok(EquivocationProof(a.eventId, a.pubkey, i % 0x1_0000, d.value))
  }

  predicate Parallel(a: ParsedAttestation, b: ParsedAttestation) {
    |a.outcomes| == |a.signatures| == |b.signatures| == |b.outcomes|
  }

  /** The scan from digit `i` on. */
  ghost function Scan(w: World, a: ParsedAttestation, b: ParsedAttestation, px: XOnlyKey,
                      i: nat): Result<EquivocationProof, EquivocationError>
    requires IsPrime(N) && Parallel(a, b) && i <= |a.outcomes|
    decreases |a.outcomes| - i
  {
    if i == |a.outcomes| then Err(NoConflict) else
    var da, db := OutcomeDigit(a.outcomes[i]), OutcomeDigit(b.outcomes[i]);
    if da.None? || db.None? then Err(BadOutcome)
    else if da == db then Scan(w, a, b, px, i + 1)
    else Judge(w, a, b, px, i, da.value, db.value)
  }

  lemma ParsedParallel(utf8: Utf8, s: bytes)
    requires ParseAttestation(utf8, s).Ok?
    ensures |ParseAttestation(utf8, s).value.outcomes| == |ParseAttestation(utf8, s).value.signatures| < 0x1_0000
  {
    AttestationCanonical(utf8, s);
  }

  ghost function Verdict(w: World, attA: bytes, attB: bytes): Result<EquivocationProof, EquivocationError>
    requires IsPrime(N)
  {
    var a, b := ParseAttestation(w.utf8, attA), ParseAttestation(w.utf8, attB);
    if a.Err? then Err(Parse(a.error)) else
    if b.Err? then Err(Parse(b.error)) else
    ParsedParallel(w.utf8, attA);
    ParsedParallel(w.utf8, attB);
    if a.value.eventId != b.value.eventId || a.value.pubkey != b.value.pubkey
      || |a.value.signatures| != |b.value.signatures| then Err(NotComparable) else
    if w.view(a.value.pubkey).OffCurve? then Err(BadSignature) else
    Scan(w, a.value, b.value, w.view(a.value.pubkey).key, 0)
  }

  method VerifyEquivocation(w: World, attA: bytes, attB: bytes)
      returns (r: Result<EquivocationProof, EquivocationError>)
    ensures IsPrime(N) ==> r == Verdict(w, attA, attB)
  {
    hide IsPrime, Verify, Extracted, ParseAttestation, BE, XOf;
    var pa := Tlv.Parse(w.utf8, attA);
    if pa.Err? { return Err(Parse(pa.error)); }
    var pb := Tlv.Parse(w.utf8, attB);
    if pb.Err? { return Err(Parse(pb.error)); }
    var a, b := pa.value, pb.value;
    ParsedParallel(w.utf8, attA);
    ParsedParallel(w.utf8, attB);
    if a.eventId != b.eventId || a.pubkey != b.pubkey || |a.signatures| != |b.signatures| { return Err(NotComparable); }
    if w.view(a.pubkey).OffCurve? { return Err(BadSignature); }
    var px := w.view(a.pubkey).key;
    for i := 0 to |a.outcomes|
      invariant IsPrime(N) ==> Verdict(w, attA, attB) == Scan(w, a, b, px, i)
    {
      var da, db := OutcomeDigit(a.outcomes[i]), OutcomeDigit(b.outcomes[i]);
      if da.None? || db.None? { return Err(BadOutcome); }
      if da == db { continue; }
      var sa, sb := SignatureOf(w, a.signatures[i]), SignatureOf(w, b.signatures[i]);
      var ma, mb := w.digitMsg(da.value), w.digitMsg(db.value);
      if !Verify(w.env, px, ma, sa) { return Err(BadSignature); }
      if !Verify(w.env, px, mb, sb) { return Err(BadSignature); }
      if NonceBytes(a.signatures[i]) != NonceBytes(b.signatures[i]) { return Err(BadSignature); }
      var d := ExtractSecret(w.env, sa, sb, ma, mb, px);
      if d.None? { return Err(ExtractionFailed); }
      return Ok(EquivocationProof(a.eventId, a.pubkey, i % 0x1_0000, d.value));
    }
    r := Err(NoConflict);
  }

  // --------------------------------------------------------- what a verdict means

  predicate AgreeBefore(a: ParsedAttestation, b: ParsedAttestation, from: nat, i: nat)
    requires Parallel(a, b) && i <= |a.outcomes|
  {
    forall k :: from <= k < i ==>
      OutcomeDigit(a.outcomes[k]).Some? && OutcomeDigit(a.outcomes[k]) == OutcomeDigit(b.outcomes[k])
  }

  /** Both digits are signed, validly and with one nonce. */
  ghost predicate SignedBothWays(w: World, a: ParsedAttestation, b: ParsedAttestation, px: XOnlyKey, i: nat)
    requires Parallel(a, b) && i < |a.outcomes|
  {
    var da, db := OutcomeDigit(a.outcomes[i]), OutcomeDigit(b.outcomes[i]);
    && da.Some? && db.Some? && da != db
    && Verify(w.env, px, w.digitMsg(da.value), SignatureOf(w, a.signatures[i]))
    && Verify(w.env, px, w.digitMsg(db.value), SignatureOf(w, b.signatures[i]))
    && NonceBytes(a.signatures[i]) == NonceBytes(b.signatures[i])
  }

  /** The scalars and challenges of the two signatures can be divided. */
  ghost predicate Extractable(w: World, a: ParsedAttestation, b: ParsedAttestation, px: XOnlyKey, i: nat)
    requires Parallel(a, b) && i < |a.outcomes| && SignedBothWays(w, a, b, px, i)
  {
    var sa, sb := SignatureOf(w, a.signatures[i]), SignatureOf(w, b.signatures[i]);
    var da, db := OutcomeDigit(a.outcomes[i]).value, OutcomeDigit(b.outcomes[i]).value;
    && sa.s != 0 && sb.s != 0
    && sa.r.OnCurve?
    && var ea, eb := Challenge(w.env, sa.r.key, px, w.digitMsg(da)), Challenge(w.env, sa.r.key, px, w.digitMsg(db));
    ea != 0 && eb != 0 && ea != eb
  }

  lemma JudgedRight(w: World, a: ParsedAttestation, b: ParsedAttestation, px: XOnlyKey, i: nat)
    requires IsPrime(N) && Parallel(a, b) && i < |a.outcomes| < 0x1_0000
    requires OutcomeDigit(a.outcomes[i]).Some? && OutcomeDigit(b.outcomes[i]).Some?
    requires OutcomeDigit(a.outcomes[i]) != OutcomeDigit(b.outcomes[i])
    ensures Judge(w, a, b, px, i, OutcomeDigit(a.outcomes[i]).value, OutcomeDigit(b.outcomes[i]).value) ==
      if !SignedBothWays(w, a, b, px, i) then Err(BadSignature)
      else if !Extractable(w, a, b, px, i) then Err(ExtractionFailed)
      else Ok(EquivocationProof(a.eventId, a.pubkey, i, LiftEven(w.env, px).log))
  {
    hide IsPrime, Verify, Extracted, BE, LiftEven, XOf, Challenge;
    var da, db := OutcomeDigit(a.outcomes[i]).value, OutcomeDigit(b.outcomes[i]).value;
    if SignedBothWays(w, a, b, px, i) {
      var sa, sb := SignatureOf(w, a.signatures[i]), SignatureOf(w, b.signatures[i]);
      if w.digitMsg(da) != w.digitMsg(db) {
        EquivocationReveals(w.env, sa, sb, w.digitMsg(da), w.digitMsg(db), px);
      } else {
        SameMessage(w.env, sa, sb, w.digitMsg(da), px);
      }
    }
  }

  lemma SameMessage(env: Env, sa: Signature, sb: Signature, msg: Bytes32, px: XOnlyKey)
    requires IsPrime(N)
    ensures Extracted(env, sa, sb, msg, msg, px) == None
  {
  }

  /** The verdict, exactly, at the first digit `i` (from `from` on) on which the two
      attestations do not agree. */
  lemma {:induction false} ScanFinds(w: World, a: ParsedAttestation, b: ParsedAttestation, px: XOnlyKey, from: nat,
                                     i: nat)
    requires IsPrime(N) && Parallel(a, b) && from <= i <= |a.outcomes| < 0x1_0000
    requires AgreeBefore(a, b, from, i)
    requires i < |a.outcomes| ==>
      OutcomeDigit(a.outcomes[i]).None? || OutcomeDigit(a.outcomes[i]) != OutcomeDigit(b.outcomes[i])
    ensures Scan(w, a, b, px, from) ==
      if i == |a.outcomes| then Err(NoConflict)
      else if OutcomeDigit(a.outcomes[i]).None? || OutcomeDigit(b.outcomes[i]).None? then Err(BadOutcome)
      else if !SignedBothWays(w, a, b, px, i) then Err(BadSignature)
      else if !Extractable(w, a, b, px, i) then Err(ExtractionFailed)
      else Ok(EquivocationProof(a.eventId, a.pubkey, i, LiftEven(w.env, px).log))
    decreases i - from
  {
    hide IsPrime, Judge, LiftEven, SignedBothWays, Extractable;
    if from < i {
      ScanFinds(w, a, b, px, from + 1, i);
    } else if i < |a.outcomes| && OutcomeDigit(a.outcomes[i]).Some? && OutcomeDigit(b.outcomes[i]).Some? {
      JudgedRight(w, a, b, px, i);
    }
  }

  /** Where two attestations first fail to agree. */
  function FirstConflict(a: ParsedAttestation, b: ParsedAttestation, from: nat): (i: nat)
    requires Parallel(a, b) && from <= |a.outcomes|
    ensures from <= i <= |a.outcomes| && AgreeBefore(a, b, from, i)
    ensures i < |a.outcomes| ==>
      OutcomeDigit(a.outcomes[i]).None? || OutcomeDigit(a.outcomes[i]) != OutcomeDigit(b.outcomes[i])
    decreases |a.outcomes| - from
  {
    if from == |a.outcomes| then from
    else if OutcomeDigit(a.outcomes[from]).Some?
      && OutcomeDigit(a.outcomes[from]) == OutcomeDigit(b.outcomes[from]) then FirstConflict(a, b, from + 1)
    else from
  }

  /** Sound and complete.  A proof is issued exactly when both byte strings parse to
      attestations of one event under one key on the curve, of one size, and the first
      digit on which they do not agree is validly signed both ways with one nonce and can
      be divided; the proof then names that digit, and its secret is the secret key of
      the even-Y point of the oracle's key. */
  lemma ProofIff(w: World, attA: bytes, attB: bytes)
    requires IsPrime(N)
    ensures Verdict(w, attA, attB).Ok? <==>
      && ParseAttestation(w.utf8, attA).Ok? && ParseAttestation(w.utf8, attB).Ok?
      && var a, b := ParseAttestation(w.utf8, attA).value, ParseAttestation(w.utf8, attB).value;
      && a.eventId == b.eventId && a.pubkey == b.pubkey && Parallel(a, b)
      && w.view(a.pubkey).OnCurve?
      && var i := FirstConflict(a, b, 0);
      && i < |a.outcomes|
      && SignedBothWays(w, a, b, w.view(a.pubkey).key, i) && Extractable(w, a, b, w.view(a.pubkey).key, i)
    ensures Verdict(w, attA, attB).Ok? ==>
      var a, b := ParseAttestation(w.utf8, attA).value, ParseAttestation(w.utf8, attB).value;
      var proof := Verdict(w, attA, attB).value;
      && Parallel(a, b) && proof.digitIndex == FirstConflict(a, b, 0)
      && proof.eventId == a.eventId == b.eventId
      && PublicOf(proof.secret) == LiftEven(w.env, w.view(a.pubkey).key)
  {
    hide IsPrime, ParseAttestation, Scan, SignedBothWays, Extractable, LiftEven, OutcomeDigit, FirstConflict;
    if ParseAttestation(w.utf8, attA).Ok? && ParseAttestation(w.utf8, attB).Ok? {
      var a, b := ParseAttestation(w.utf8, attA).value, ParseAttestation(w.utf8, attB).value;
      ParsedParallel(w.utf8, attA);
      ParsedParallel(w.utf8, attB);
      if |a.signatures| == |b.signatures| && w.view(a.pubkey).OnCurve? {
        ScanFinds(w, a, b, w.view(a.pubkey).key, 0, FirstConflict(a, b, 0));
        BothWaysAreDigits(w, a, b, w.view(a.pubkey).key, FirstConflict(a, b, 0));
      }
    }
  }

  lemma BothWaysAreDigits(w: World, a: ParsedAttestation, b: ParsedAttestation, px: XOnlyKey, i: nat)
    requires Parallel(a, b) && i <= |a.outcomes|
    ensures i < |a.outcomes| && SignedBothWays(w, a, b, px, i) ==>
      OutcomeDigit(a.outcomes[i]).Some? && OutcomeDigit(b.outcomes[i]).Some?
  {
    hide Verify;
  }
}
