/** The strict reader of proof files: it checks magics, minimal lengths, the hash chain,
    record order and trailing bytes.

    Its cursor makes the reads of `Codec.Decoder`.  A BigSize becomes a floating-point
    number, which is exact up to 2^53; the conversion is a parameter, and the statements say
    when its rounding shows. */
module TaProof {
  import opened Options
  import opened Bytes
  import opened Codec
  import opened Sorting
  import opened ProofFile

  datatype ProofError =
    Truncated | BadFileMagic | BadProofMagic | ChecksumMismatch | TrailingBytes | NonCanonicalBigSize | TlvOutOfOrder

  /** `Number`, from a 64-bit integer to a floating-point one. */
  type ToNumber = nat -> nat

  const TWO53: nat := 0x20_0000_0000_0000

  /** All that is used of double precision: exact up to 2^53, in range beyond, and the first
      number beyond is a tie that goes to the even neighbour. */
  ghost predicate Double(num: ToNumber) {
    && num(TWO53 + 1) == TWO53
    && (forall v: nat :: v <= TWO53 ==> num(v) == v)
    && (forall v: nat :: TWO53 < v < TWO64 ==> TWO53 <= num(v) <= TWO64)
  }

  function Refused(e: DecodeError): ProofError {
    if e.NonCanonicalBigSize? then ProofError.NonCanonicalBigSize else ProofError.Truncated
  }

  /** A read and what it leaves, with the reader's own errors. */
  datatype Step<+T> = Step(result: Result<T, ProofError>, rest: bytes)

  function Lift<T>(r: Read<T>): Step<T> {
    Step(if r.result.Ok? then Ok(r.result.value) else Err(Refused(r.result.error)), r.rest)
  }

  function ReadNumber(num: ToNumber, s: bytes): Step<nat> {
    var r := Lift(ReadBigSize(s));
    if r.result.Err? then r else Step(Ok(num(r.result.value)), r.rest)
  }

  function ReadSized(num: ToNumber, s: bytes): Step<bytes> {
    var len := ReadNumber(num, s);
    if len.result.Err? then Step(Err(len.result.error), len.rest) else Lift(ReadTake(len.rest, len.result.value))
  }

  predicate IsProof(s: bytes) {
    PROOF_MAGIC <= s
  }

  // -------------------------------------------------------------------- the file

  /** One proof and its link. */
  function ReadProof(sha: Digest, num: ToNumber, prev: ProofFile.Word, s: bytes): Step<bytes> {
    var proof := ReadSized(num, s);
    if proof.result.Err? then proof
    else if !IsProof(proof.result.value) then Step(Err(BadProofMagic), proof.rest)
    else
      var link := Lift(ReadTake(proof.rest, 32));
      if link.result.Err? then Step(Err(link.result.error), link.rest)
      else if sha(prev + proof.result.value) != link.result.value then Step(Err(ChecksumMismatch), link.rest)
      else Step(proof.result, link.rest)
  }

  function ReadProofs(sha: Digest, num: ToNumber, prev: ProofFile.Word, s: bytes,
                      n: nat): Result<seq<bytes>, ProofError>
    decreases n
  {
    if n == 0 then if |s| > 0 then Err(TrailingBytes) else Ok([]) else
    var proof := ReadProof(sha, num, prev, s);
    if proof.result.Err? then Err(proof.result.error) else
    Before(proof.result.value, ReadProofs(sha, num, sha(prev + proof.result.value), proof.rest, n - 1))
  }

  function Before<T>(x: T, rest: Result<seq<T>, ProofError>): Result<seq<T>, ProofError> {
    if rest.Ok? then Ok([x] + rest.value) else rest
  }

  function After<T>(a: seq<T>, rest: Result<seq<T>, ProofError>): Result<seq<T>, ProofError> {
    if rest.Ok? then Ok(a + rest.value) else rest
  }

  lemma AfterBefore<T>(a: seq<T>, x: T, rest: Result<seq<T>, ProofError>)
    ensures After(a, Before(x, rest)) == After(a + [x], rest)
  {
    if rest.Ok? { assert a + ([x] + rest.value) == a + [x] + rest.value; }
  }

  lemma AfterNothing<T>(a: seq<T>, rest: Result<seq<T>, ProofError>)
    ensures After(a, Ok([])) == Ok(a) && After([], rest) == rest
  {
    assert a + [] == a;
    if rest.Ok? { assert [] + rest.value == rest.value; }
  }

  datatype File = File(version: u32, proofs: seq<bytes>)

  function ParsedFile(sha: Digest, num: ToNumber, data: bytes): Result<File, ProofError> {
    if |data| < 4 then Err(ProofError.Truncated)
    else if data[..4] != FILE_MAGIC then Err(BadFileMagic)
    else if |data| < 8 then Err(ProofError.Truncated)
    else
      var count := ReadNumber(num, data[8..]);
      if count.result.Err? then Err(count.result.error) else
      var proofs := ReadProofs(sha, num, GENESIS, count.rest, count.result.value);
      if proofs.Err? then Err(proofs.error) else
      VersionBound(data[4..8]);
      Ok(File(BE(data[4..8]), proofs.value))
  }

  lemma VersionBound(s: bytes)
    requires |s| == 4
    ensures BE(s) < TWO32
  {
    BEBound(s);
    Pow256Of4();
  }

  method CursorNumber(c: Decoder, num: ToNumber) returns (r: Result<nat, ProofError>)
    requires c.Valid()
    modifies c
    ensures c.Valid() && Step(r, c.Rest()) == ReadNumber(num, old(c.Rest()))
  {
    hide ReadBigSize;
    var v := c.BigSize();
    r := if v.Err? then Err(Refused(v.error)) else Ok(num(v.value));
  }

  method CursorTake(c: Decoder, n: nat) returns (r: Result<bytes, ProofError>)
    requires c.Valid()
    modifies c
    ensures c.Valid() && Step(r, c.Rest()) == Lift(ReadTake(old(c.Rest()), n))
  {
    var t := c.Take(n);
    r := if t.Err? then Err(Refused(t.error)) else Ok(t.value);
  }

  method CursorProof(sha: Digest, c: Decoder, num: ToNumber, prev: ProofFile.Word)
      returns (r: Result<bytes, ProofError>)
    requires c.Valid()
    modifies c
    ensures c.Valid() && Step(r, c.Rest()) == ReadProof(sha, num, prev, old(c.Rest()))
  {
    hide ReadNumber, ReadTake;
    var len := CursorNumber(c, num);
    if len.Err? { return Err(len.error); }
    var proof := CursorTake(c, len.value);
    if proof.Err? { return Err(proof.error); }
    if !IsProof(proof.value) { return Err(BadProofMagic); }
    var checksum := CursorTake(c, 32);
    if checksum.Err? { return Err(checksum.error); }
    r := if sha(prev + proof.value) != checksum.value then Err(ChecksumMismatch) else Ok(proof.value);
  }

  lemma ProofsStep(sha: Digest, num: ToNumber, prev: ProofFile.Word, s: bytes, n: nat, a: seq<bytes>)
    requires n > 0
    ensures var proof := ReadProof(sha, num, prev, s);
      After(a, ReadProofs(sha, num, prev, s, n)) ==
        if proof.result.Err? then Err(proof.result.error)
        else After(a + [proof.result.value], ReadProofs(sha, num, sha(prev + proof.result.value), proof.rest, n - 1))
  {
    var proof := ReadProof(sha, num, prev, s);
    if proof.result.Ok? {
      AfterBefore(a, proof.result.value, ReadProofs(sha, num, sha(prev + proof.result.value), proof.rest, n - 1));
    }
    hide ReadProof, Before;
  }

  method ParseProofFile(sha: Digest, num: ToNumber, data: bytes) returns (r: Result<File, ProofError>)
    ensures r == ParsedFile(sha, num, data)
  {
    hide ReadNumber, ReadProof, ReadProofs, After, BE;
    var c := new Decoder(data);
    var magic := CursorTake(c, 4);
    if magic.Err? { return Err(magic.error); }
    if magic.value != FILE_MAGIC { return Err(BadFileMagic); }
    var version := CursorTake(c, 4);
    if version.Err? { return Err(version.error); }
    assert version.value == data[4..8] && c.Rest() == data[8..];
    VersionBound(version.value);
    var count := CursorNumber(c, num);
    if count.Err? { return Err(count.error); }
    var proofs: seq<bytes> := [];
    var prev := GENESIS;
    ghost var all := ReadProofs(sha, num, GENESIS, c.Rest(), count.value);
    AfterNothing(proofs, all);
    for k := 0 to count.value
      invariant c.Valid() && fresh(c)
      invariant After(proofs, ReadProofs(sha, num, prev, c.Rest(), count.value - k)) == all
    {
      ProofsStep(sha, num, prev, c.Rest(), count.value - k, proofs);
      var proof := CursorProof(sha, c, num, prev);
      if proof.Err? { return Err(proof.error); }
      prev := sha(prev + proof.value);
      proofs := proofs + [proof.value];
    }
    ProofsEnd(sha, num, prev, c.Rest(), proofs);
    if !c.Done() { return Err(TrailingBytes); }
    r := Ok(File(BE(version.value), proofs));
  }

  lemma ProofsEnd(sha: Digest, num: ToNumber, prev: ProofFile.Word, s: bytes, a: seq<bytes>)
    ensures After(a, ReadProofs(sha, num, prev, s, 0)) == if |s| > 0 then Err(TrailingBytes) else Ok(a)
  {
    AfterNothing(a, ReadProofs(sha, num, prev, s, 0));
  }

  // ----------------------------------------------------- the reader and the builder

  predicate AllProofs(proofs: seq<bytes>) {
    forall i :: 0 <= i < |proofs| ==> IsProof(proofs[i])
  }

  lemma NumberRoundTrip(num: ToNumber, v: u64, after: bytes)
    ensures ReadNumber(num, BigSizeBytes(v) + after) == Step(Ok(num(v)), after)
  {
    hide ReadBigSize, BigSizeBytes;
    BigSizeRoundTrip(v, after);
  }

  lemma ExactNumber(num: ToNumber, v: nat)
    requires Double(num) && v <= TWO53
    ensures num(v) == v
  {
  }

  lemma SizedRoundTrip(num: ToNumber, v: Blob, after: bytes)
    requires Double(num) && |v| <= TWO53
    ensures ReadSized(num, VarBytes(v) + after) == Step(Ok(v), after)
  {
    hide ReadNumber, BigSizeBytes, Double;
    assert VarBytes(v) + after == BigSizeBytes(|v|) + (v + after);
    ExactNumber(num, |v|);
    NumberRoundTrip(num, |v|, v + after);
    assert (v + after)[..|v|] == v && (v + after)[|v|..] == after;
  }

  lemma LinkRoundTrip(sha: Digest, num: ToNumber, prev: ProofFile.Word, p: Blob, rest: bytes)
    requires Double(num) && |p| <= TWO53
    ensures var r := ReadProof(sha, num, prev, VarBytes(p) + (sha(prev + p) + rest));
      if IsProof(p) then r == Step(Ok(p), rest) else r.result == Err(BadProofMagic)
  {
    hide ReadSized, VarBytes, Double;
    var link: ProofFile.Word := sha(prev + p);
    SizedRoundTrip(num, p, link + rest);
    assert (link + rest)[..32] == link && (link + rest)[32..] == rest;
  }

  lemma LinksUnfold(sha: Digest, prev: ProofFile.Word, proofs: seq<Blob>)
    requires |proofs| > 0
    ensures var rest := Links(sha, sha(prev + proofs[0]), proofs[1..]);
      && Links(sha, prev, proofs) == VarBytes(proofs[0]) + (sha(prev + proofs[0]) + rest)
      && |Links(sha, prev, proofs)| > |proofs[0]| && |Links(sha, prev, proofs)| > |rest|
  {
    VarBytesLength(proofs[0]);
    hide VarBytes;
  }

  lemma ReadProofsUnfold(sha: Digest, num: ToNumber, prev: ProofFile.Word, s: bytes, n: nat)
    requires n > 0
    ensures var proof := ReadProof(sha, num, prev, s);
      ReadProofs(sha, num, prev, s, n) ==
        if proof.result.Err? then Err(proof.result.error)
        else Before(proof.result.value, ReadProofs(sha, num, sha(prev + proof.result.value), proof.rest, n - 1))
  {
    hide ReadProof, Before;
  }

  lemma NoLinks(sha: Digest, num: ToNumber, prev: ProofFile.Word)
    ensures Links(sha, prev, []) == [] && ReadProofs(sha, num, prev, [], 0) == Ok([]) && AllProofs([])
  {
  }

  lemma BeforeAll(p: bytes, rest: seq<bytes>, proofs: seq<bytes>)
    requires proofs == [p] + rest
    ensures Before(p, Ok(rest)) == Ok(proofs) && forall e: ProofError :: Before<bytes>(p, Err(e)) == Err(e)
  {
  }

  lemma {:induction false} LinksParse(sha: Digest, num: ToNumber, prev: ProofFile.Word, proofs: seq<Blob>)
    requires Double(num) && |Links(sha, prev, proofs)| <= TWO53
    ensures ReadProofs(sha, num, prev, Links(sha, prev, proofs), |proofs|) ==
      if AllProofs(proofs) then Ok(proofs) else Err(BadProofMagic)
    decreases |proofs|
  {
    hide *;
    if |proofs| == 0 {
      NoLinks(sha, num, prev);
    } else {
      var link: ProofFile.Word := sha(prev + proofs[0]);
      LinksUnfold(sha, prev, proofs);
      LinkRoundTrip(sha, num, prev, proofs[0], Links(sha, link, proofs[1..]));
      ReadProofsUnfold(sha, num, prev, Links(sha, prev, proofs), |proofs|);
      LinksParse(sha, num, link, proofs[1..]);
      BeforeAll(proofs[0], proofs[1..], proofs);
      AllProofsStep(proofs);
    }
  }

  lemma AllProofsStep(proofs: seq<bytes>)
    requires |proofs| > 0
    ensures AllProofs(proofs) <==> IsProof(proofs[0]) && AllProofs(proofs[1..])
  {
    hide IsProof;
    if IsProof(proofs[0]) && AllProofs(proofs[1..]) {
      forall i | 0 <= i < |proofs|
        ensures IsProof(proofs[i])
      {
        if i > 0 { assert proofs[1..][i - 1] == proofs[i]; }
      }
    }
  }

  lemma VarBytesLength(v: Blob)
    ensures |VarBytes(v)| > |v|
  {
  }

  lemma {:induction false} LinksLength(sha: Digest, prev: ProofFile.Word, proofs: seq<Blob>)
    ensures |Links(sha, prev, proofs)| >= |proofs|
    decreases |proofs|
  {
    if |proofs| > 0 {
      VarBytesLength(proofs[0]);
      LinksLength(sha, sha(prev + proofs[0]), proofs[1..]);
      hide VarBytes;
    }
  }

  /** The strict reader accepts a built file exactly when every proof starts with its magic,
      and then reads the proofs that were built. */
  lemma BuiltParsesIff(sha: Digest, num: ToNumber, version: u32, proofs: seq<Blob>)
    requires Double(num) && Countable(proofs) && |FileBytes(sha, version, proofs)| <= TWO53
    ensures ParsedFile(sha, num, FileBytes(sha, version, proofs)) ==
      if AllProofs(proofs) then Ok(File(version, proofs)) else Err(BadProofMagic)
  {
    hide ReadNumber, ReadProofs, Links, BigSizeBytes, FileBytes, AllProofs, Double, ToBE, BE;
    FileParts(sha, version, proofs);
    LinksLength(sha, GENESIS, proofs);
    ExactNumber(num, |proofs|);
    NumberRoundTrip(num, |proofs|, Links(sha, GENESIS, proofs));
    LinksParse(sha, num, GENESIS, proofs);
    VersionRoundTrip(version);
  }

  lemma VersionRoundTrip(version: u32)
    ensures BE(ToBE(version, 4)) == version
  {
    Pow256Of4();
    hide Pow256;
    BEOfToBE(version, 4);
  }

  lemma NumberCanonical(num: ToNumber, s: bytes)
    requires Double(num) && |s| <= TWO53 && ReadNumber(num, s).result.Ok? && ReadNumber(num, s).result.value < TWO53
    ensures var r := ReadNumber(num, s);
      r.result.value < TWO64 && s == BigSizeBytes(r.result.value) + r.rest
  {
    hide ReadBigSize, BigSizeBytes;
    BigSizeCanonical(s);
  }

  lemma SizedCanonical(num: ToNumber, s: bytes)
    requires Double(num) && |s| <= TWO53 && ReadSized(num, s).result.Ok?
    ensures var r := ReadSized(num, s);
      Fits(r.result.value) && s == VarBytes(r.result.value) + r.rest
  {
    var len := ReadNumber(num, s);
    assert len.result.Ok? && len.result.value <= |len.rest| < |s| by { ReadShrinks(s); hide ReadBigSize; }
    hide ReadNumber, BigSizeBytes;
    NumberCanonical(num, s);
    assert len.rest == len.rest[..len.result.value] + len.rest[len.result.value..];
  }

  lemma ReadShrinks(s: bytes)
    requires ReadBigSize(s).result.Ok?
    ensures |ReadBigSize(s).rest| < |s|
  {
    hide BE;
  }

  lemma LinkCanonical(sha: Digest, num: ToNumber, prev: ProofFile.Word, s: bytes)
    requires Double(num) && |s| <= TWO53 && ReadProof(sha, num, prev, s).result.Ok?
    ensures var r := ReadProof(sha, num, prev, s);
      && Fits(r.result.value) && IsProof(r.result.value) && |r.rest| < |s|
      && s == VarBytes(r.result.value) + sha(prev + r.result.value) + r.rest
  {
    hide ReadSized, VarBytes, Double, IsProof;
    SizedCanonical(num, s);
    var proof := ReadSized(num, s);
    assert proof.rest == proof.rest[..32] + proof.rest[32..];
  }

  lemma {:induction false} LinksCanonical(sha: Digest, num: ToNumber, prev: ProofFile.Word, s: bytes, n: nat)
      returns (proofs: seq<Blob>)
    requires Double(num) && |s| <= TWO53 && ReadProofs(sha, num, prev, s, n).Ok?
    ensures ReadProofs(sha, num, prev, s, n).value == proofs && |proofs| == n
    ensures s == Links(sha, prev, proofs) && AllProofs(proofs)
    decreases n
  {
    hide ReadProof, Double, VarBytes, IsProof;
    if n == 0 {
      proofs := [];
    } else {
      LinkCanonical(sha, num, prev, s);
      var r := ReadProof(sha, num, prev, s);
      var p: Blob := r.result.value;
      var rest := LinksCanonical(sha, num, sha(prev + p), r.rest, n - 1);
      proofs := [p] + rest;
      assert proofs[1..] == rest;
      AllProofsStep(proofs);
    }
  }

  /** Every accepted file is the built file of what was read, magics and chain and all; and
      the assembler's splitting agrees with the strict reader on it. */
  lemma ParsedIsBuilt(sha: Digest, num: ToNumber, data: bytes) returns (proofs: seq<Blob>)
    requires Double(num) && |data| <= TWO53 && ParsedFile(sha, num, data).Ok?
    ensures var file := ParsedFile(sha, num, data).value;
      && file.proofs == proofs && Countable(proofs) && AllProofs(proofs)
      && data == FileBytes(sha, file.version, proofs)
    ensures Split(data) == Some(proofs)
  {
    hide ReadNumber, ReadProofs, Links, BigSizeBytes, Double, ToBE, BE, Split, AllProofs;
    var count := ReadNumber(num, data[8..]);
    CountBound(num, data[8..]);
    proofs := LinksCanonical(sha, num, GENESIS, count.rest, count.result.value);
    LinksLength(sha, GENESIS, proofs);
    NumberCanonical(num, data[8..]);
    ToBEOfBE(data[4..8]);
    assert data == data[..4] + data[4..8] + data[8..];
    SplitOfBuild(sha, ParsedFile(sha, num, data).value.version, proofs);
  }

  lemma CountBound(num: ToNumber, s: bytes)
    requires ReadNumber(num, s).result.Ok?
    ensures |ReadNumber(num, s).rest| < |s|
  {
    hide ReadBigSize;
    ReadShrinks(s);
  }

  // ------------------------------------------------------------------- one proof

  datatype NumberRecord = NumberRecord(kind: nat, value: bytes)

  predicate Follows(last: Option<nat>, kind: nat) {
    last.None? || last.value < kind
  }

  function ParsedTlv(num: ToNumber, s: bytes, last: Option<nat>): Result<seq<NumberRecord>, ProofError>
    decreases |s|
  {
    if |s| == 0 then Ok([]) else
    var kind := ReadNumber(num, s);
    if kind.result.Err? then Err(kind.result.error)
    else if !Follows(last, kind.result.value) then Err(TlvOutOfOrder)
    else
      var value := ReadSized(num, kind.rest);
      if value.result.Err? then Err(value.result.error) else
      TlvShrinks(num, s);
      Before(NumberRecord(kind.result.value, value.result.value), ParsedTlv(num, value.rest, Some(kind.result.value)))
  }

  lemma TlvShrinks(num: ToNumber, s: bytes)
    requires ReadNumber(num, s).result.Ok? && ReadSized(num, ReadNumber(num, s).rest).result.Ok?
    ensures |ReadSized(num, ReadNumber(num, s).rest).rest| < |s|
  {
    CountBound(num, s);
    CountBound(num, ReadNumber(num, s).rest);
    hide ReadNumber;
  }

  function ParsedProof(num: ToNumber, blob: bytes): Result<seq<NumberRecord>, ProofError> {
    if IsProof(blob) then ParsedTlv(num, blob[4..], None)
    else Err(if |blob| < 4 then ProofError.Truncated else BadProofMagic)
  }

  lemma TlvStep(num: ToNumber, s: bytes, last: Option<nat>, a: seq<NumberRecord>)
    requires |s| > 0
    ensures var kind := ReadNumber(num, s);
      After(a, ParsedTlv(num, s, last)) ==
        if kind.result.Err? then Err(kind.result.error)
        else if !Follows(last, kind.result.value) then Err(TlvOutOfOrder)
        else
          var value := ReadSized(num, kind.rest);
          if value.result.Err? then Err(value.result.error)
          else After(a + [NumberRecord(kind.result.value, value.result.value)],
                     ParsedTlv(num, value.rest, Some(kind.result.value)))
  {
    var kind := ReadNumber(num, s);
    if kind.result.Ok? && Follows(last, kind.result.value) && ReadSized(num, kind.rest).result.Ok? {
      var value := ReadSized(num, kind.rest);
      AfterBefore(a, NumberRecord(kind.result.value, value.result.value),
                  ParsedTlv(num, value.rest, Some(kind.result.value)));
    }
    hide ReadNumber, ReadSized, Before;
  }

  method ParseTlv(num: ToNumber, data: bytes) returns (r: Result<seq<NumberRecord>, ProofError>)
    ensures r == ParsedTlv(num, data, None)
  {
    hide ReadNumber, ReadTake, ParsedTlv, After;
    var c := new Decoder(data);
    var records: seq<NumberRecord> := [];
    var last: Option<nat> := None;
    AfterNothing(records, ParsedTlv(num, c.Rest(), None));
    assert c.Rest() == data;
    while c.pos < |data|
      invariant c.Valid() && c.data == data && fresh(c)
      invariant After(records, ParsedTlv(num, c.Rest(), last)) == ParsedTlv(num, data, None)
      decreases |c.Rest()|
    {
      TlvStep(num, c.Rest(), last, records);
      ghost var before := c.Rest();
      var kind := CursorNumber(c, num);
      if kind.Err? { return Err(kind.error); }
      if last.Some? && kind.value <= last.value { return Err(TlvOutOfOrder); }
      last := Some(kind.value);
      var len := CursorNumber(c, num);
      if len.Err? { return Err(len.error); }
      var value := CursorTake(c, len.value);
      if value.Err? { return Err(value.error); }
      TlvShrinks(num, before);
      records := records + [NumberRecord(kind.value, value.value)];
    }
    TlvEnd(num, last, records);
    r := Ok(records);
  }

  lemma TlvEnd(num: ToNumber, last: Option<nat>, a: seq<NumberRecord>)
    ensures After(a, ParsedTlv(num, [], last)) == Ok(a)
  {
    AfterNothing(a, ParsedTlv(num, [], last));
  }

  function NumberBytes(x: nat): bytes {
    if x < 0xfd then [x]
    else if x <= 0xffff then [0xfd] + ToBE(x, 2)
    else if x <= 0xffff_ffff then [0xfe] + ToBE(x, 4)
    else [0xff] + ToBE(x, 8)
  }

  function NumberRecordsBytes(records: seq<NumberRecord>): bytes {
    if |records| == 0 then [] else
    NumberBytes(records[0].kind) + NumberBytes(|records[0].value|) + records[0].value + NumberRecordsBytes(records[1..])
  }

  lemma {:induction false} NumberRecordsSplit(a: seq<NumberRecord>, r: NumberRecord)
    ensures NumberRecordsBytes(a + [r]) ==
      NumberRecordsBytes(a) + NumberBytes(r.kind) + NumberBytes(|r.value|) + r.value
  {
    hide NumberBytes;
    if |a| == 0 {
      assert a + [r] == [r] && [r][1..] == [];
    } else {
      assert (a + [r])[1..] == a[1..] + [r];
      NumberRecordsSplit(a[1..], r);
    }
  }

  method ReencodeProof(records: seq<NumberRecord>) returns (out: bytes)
    ensures out == PROOF_MAGIC + NumberRecordsBytes(records)
  {
    hide NumberBytes;
    out := PROOF_MAGIC;
    for i := 0 to |records|
      invariant out == PROOF_MAGIC + NumberRecordsBytes(records[..i])
    {
      var r := records[i];
      NumberRecordsSplit(records[..i], r);
      assert records[..i + 1] == records[..i] + [r];
      out := out + NumberBytes(r.kind);
      out := out + NumberBytes(|r.value|);
      out := out + r.value;
    }
    assert records[..|records|] == records;
  }

  function Numbers(num: ToNumber, recs: seq<Record>): seq<NumberRecord> {
    seq<NumberRecord>(|recs|, i requires 0 <= i < |recs| => NumberRecord(num(recs[i].kind), recs[i].value))
  }

  lemma NumbersStep(num: ToNumber, recs: seq<Record>)
    requires |recs| > 0
    ensures Numbers(num, recs) == [NumberRecord(num(recs[0].kind), recs[0].value)] + Numbers(num, recs[1..])
    ensures Numbers(num, recs)[0] == NumberRecord(num(recs[0].kind), recs[0].value)
      && Numbers(num, recs)[1..] == Numbers(num, recs[1..])
  {
  }

  lemma KindCanonical(num: ToNumber, s: bytes)
    requires ReadNumber(num, s).result.Ok?
    ensures LooseBigSize(s).Some?
    ensures var (kind, rest) := LooseBigSize(s).value; var r := ReadNumber(num, s);
      r.rest == rest && r.result.value == num(kind) && s == BigSizeBytes(kind) + rest
  {
    hide ReadBigSize, BigSizeBytes, LooseBigSize;
    BigSizeCanonical(s);
    LooseOfStrict(s);
  }

  lemma ValueCanonical(num: ToNumber, s: bytes)
    requires Double(num) && |s| <= TWO53 && ReadSized(num, s).result.Ok?
    ensures LooseBlob(s).Some?
    ensures var (value, rest) := LooseBlob(s).value; var r := ReadSized(num, s);
      r.rest == rest && r.result.value == value && s == VarBytes(value) + rest
  {
    hide ReadSized, VarBytes, LooseBlob;
    SizedCanonical(num, s);
    BlobRoundTrip(ReadSized(num, s).result.value, ReadSized(num, s).rest);
  }

  /** What the strict reader accepts is canonical, and the assembler reads the same records,
      before their kinds are converted. */
  lemma {:induction false} TlvCanonical(num: ToNumber, s: bytes, last: Option<nat>) returns (recs: seq<Record>)
    requires Double(num) && |s| <= TWO53 && ParsedTlv(num, s, last).Ok?
    ensures LooseRecords(s) == Some(recs) && RecordsBytes(recs) == s
    ensures ParsedTlv(num, s, last).value == Numbers(num, recs)
    decreases |s|
  {
    hide ReadNumber, ReadSized, LooseBigSize, LooseBlob, BigSizeBytes, VarBytes, Double, Numbers;
    if |s| == 0 {
      recs := [];
      NoNumbers(num);
    } else {
      KindCanonical(num, s);
      var kind := ReadNumber(num, s);
      CountBound(num, s);
      ValueCanonical(num, kind.rest);
      var value := ReadSized(num, kind.rest);
      TlvShrinks(num, s);
      var rest := TlvCanonical(num, value.rest, Some(kind.result.value));
      recs := [Record(LooseBigSize(s).value.0, LooseBlob(kind.rest).value.0)] + rest;
      assert recs[1..] == rest;
      NumbersStep(num, recs);
    }
  }

  lemma NoNumbers(num: ToNumber)
    ensures Numbers(num, []) == []
  {
  }

  lemma SmallNumber(x: u64)
    ensures NumberBytes(x) == BigSizeBytes(x)
  {
    hide ToBE;
  }

  lemma RoundedDiffers(k: u64, x: nat, a: bytes, b: bytes)
    requires k > TWO53 && TWO53 <= x <= TWO64 && x != k
    ensures NumberBytes(x) + a != BigSizeBytes(k) + b
  {
    if NumberBytes(x) + a == BigSizeBytes(k) + b {
      assert (NumberBytes(x) + a)[1..9] == ToBE(x, 8) && (BigSizeBytes(k) + b)[1..9] == ToBE(k, 8) by { hide ToBE; }
      Pow256Values();
      hide Pow256, NumberBytes, BigSizeBytes;
      BEOfToBE(k, 8);
      if x < TWO64 {
        BEOfToBE(x, 8);
      } else {
        LastWraps();
        BEOfToBE(0, 8);
      }
    }
  }

  lemma LastWraps()
    ensures ToBE(TWO64, 8) == ToBE(0, 8)
  {
    assert ToBE(TWO64 / 0x1_0000_0000, 4) == ToBE(0x1_0000_0000, 4) == ToBE(0, 4);
    assert ToBE(TWO64, 8) == ToBE(0, 8);
  }

  predicate ExactKinds(num: ToNumber, recs: seq<Record>) {
    forall i :: 0 <= i < |recs| ==> num(recs[i].kind) == recs[i].kind
  }

  lemma NumberRecordsHead(num: ToNumber, recs: seq<Record>)
    requires |recs| > 0
    ensures NumberRecordsBytes(Numbers(num, recs)) ==
      NumberBytes(num(recs[0].kind)) + (VarBytes(recs[0].value) + NumberRecordsBytes(Numbers(num, recs[1..])))
  {
    NumbersStep(num, recs);
    SmallNumber(|recs[0].value|);
    hide NumberBytes, BigSizeBytes, Numbers;
  }

  lemma {:induction false} RecordsReencode(num: ToNumber, recs: seq<Record>)
    requires Double(num)
    ensures NumberRecordsBytes(Numbers(num, recs)) == RecordsBytes(recs) <==> ExactKinds(num, recs)
  {
    if |recs| > 0 {
      hide *;
      var r, rest := recs[0], recs[1..];
      var tail, tail' := RecordsBytes(rest), NumberRecordsBytes(Numbers(num, rest));
      RecordsReencode(num, rest);
      RecordsHead(recs);
      NumberRecordsHead(num, recs);
      ExactStep(num, recs);
      if num(r.kind) == r.kind {
        SmallNumber(r.kind);
        SamePrefix(BigSizeBytes(r.kind), VarBytes(r.value) + tail, VarBytes(r.value) + tail');
        SamePrefix(VarBytes(r.value), tail, tail');
      } else {
        RoundedDiffers(r.kind, num(r.kind), VarBytes(r.value) + tail', VarBytes(r.value) + tail);
      }
    }
  }

  lemma ExactStep(num: ToNumber, recs: seq<Record>)
    requires |recs| > 0
    ensures ExactKinds(num, recs) <==> num(recs[0].kind) == recs[0].kind && ExactKinds(num, recs[1..])
  {
    if num(recs[0].kind) == recs[0].kind && ExactKinds(num, recs[1..]) {
      forall i | 0 <= i < |recs|
        ensures num(recs[i].kind) == recs[i].kind
      {
        if i > 0 { assert recs[1..][i - 1] == recs[i]; }
      }
    }
  }

  lemma SamePrefix(p: bytes, a: bytes, b: bytes)
    ensures p + a == p + b <==> a == b
  {
    assert (p + a)[|p|..] == a && (p + b)[|p|..] == b;
  }

  /** Re-encoding a parsed proof reproduces its bytes exactly when no record kind is rounded
      by the conversion to a floating-point number. */
  lemma ReencodeIff(num: ToNumber, blob: bytes) returns (recs: seq<Record>)
    requires Double(num) && |blob| <= TWO53 && ParsedProof(num, blob).Ok?
    ensures Records(blob) == Some(recs)
    ensures PROOF_MAGIC + NumberRecordsBytes(ParsedProof(num, blob).value) == blob <==> ExactKinds(num, recs)
  {
    hide ParsedTlv, LooseRecords, RecordsBytes, NumberRecordsBytes, Double, ExactKinds, Numbers;
    recs := TlvCanonical(num, blob[4..], None);
    RecordsReencode(num, recs);
    assert blob == PROOF_MAGIC + blob[4..];
    SamePrefix(PROOF_MAGIC, NumberRecordsBytes(Numbers(num, recs)), RecordsBytes(recs));
  }

  // ------------------------------------------------ which records are accepted

  /** The reader's test along a list of records. */
  predicate InOrder(num: ToNumber, recs: seq<Record>, last: Option<nat>)
    decreases |recs|
  {
    |recs| == 0 || (Follows(last, num(recs[0].kind)) && InOrder(num, recs[1..], Some(num(recs[0].kind))))
  }

  predicate NumbersAscend(num: ToNumber, recs: seq<Record>) {
    forall i, j :: 0 <= i < j < |recs| ==> num(recs[i].kind) < num(recs[j].kind)
  }

  lemma {:induction false} InOrderIff(num: ToNumber, recs: seq<Record>, last: Option<nat>)
    ensures InOrder(num, recs, last)
      <==> NumbersAscend(num, recs) && (last.Some? ==> forall i :: 0 <= i < |recs| ==> last.value < num(recs[i].kind))
    decreases |recs|
  {
    if |recs| > 0 {
      InOrderIff(num, recs[1..], Some(num(recs[0].kind)));
      assert forall i :: 0 < i < |recs| ==> recs[1..][i - 1] == recs[i];
      if InOrder(num, recs, last) {
        forall i, j | 0 <= i < j < |recs|
          ensures num(recs[i].kind) < num(recs[j].kind)
        {
          if i > 0 { assert num(recs[1..][i - 1].kind) < num(recs[1..][j - 1].kind); }
        }
      }
    }
  }

  /** Encoded records are accepted exactly when their converted kinds are in order. */
  lemma {:induction false} RecordsParse(num: ToNumber, recs: seq<Record>, last: Option<nat>)
    requires Double(num) && |RecordsBytes(recs)| <= TWO53
    ensures ParsedTlv(num, RecordsBytes(recs), last) == if InOrder(num, recs, last) then Ok(Numbers(num, recs))
      else Err(TlvOutOfOrder)
    decreases |recs|
  {
    if |recs| == 0 {
      NoNumbers(num);
    } else {
      var r, rest := recs[0], RecordsBytes(recs[1..]);
      hide *;
      RecordsHead(recs);
      NotEmpty(r, rest);
      VarBytesLength(r.value);
      NumberRoundTrip(num, r.kind, VarBytes(r.value) + rest);
      SizedRoundTrip(num, r.value, rest);
      RecordsParse(num, recs[1..], Some(num(r.kind)));
      NumbersStep(num, recs);
      ParseStep(num, RecordsBytes(recs), last, NumberRecord(num(r.kind), r.value), VarBytes(r.value) + rest, rest);
      InOrderStep(num, recs, last);
      BeforeStep(num, recs);
    }
  }

  lemma ParseStep(num: ToNumber, s: bytes, last: Option<nat>, r: NumberRecord, after: bytes, rest: bytes)
    requires |s| > 0 && ReadNumber(num, s) == Step(Ok(r.kind), after)
    requires ReadSized(num, after) == Step(Ok(r.value), rest)
    ensures ParsedTlv(num, s, last) ==
      if Follows(last, r.kind) then Before(r, ParsedTlv(num, rest, Some(r.kind))) else Err(TlvOutOfOrder)
  {
    hide ReadNumber, ReadSized, Before, Follows;
  }

  lemma InOrderStep(num: ToNumber, recs: seq<Record>, last: Option<nat>)
    requires |recs| > 0
    ensures InOrder(num, recs, last) <==>
      Follows(last, num(recs[0].kind)) && InOrder(num, recs[1..], Some(num(recs[0].kind)))
  {
    hide Follows;
  }

  lemma BeforeStep(num: ToNumber, recs: seq<Record>)
    requires |recs| > 0
    ensures Before(NumberRecord(num(recs[0].kind), recs[0].value), Ok(Numbers(num, recs[1..]))) ==
      Ok(Numbers(num, recs))
    ensures Before(NumberRecord(num(recs[0].kind), recs[0].value), Err(TlvOutOfOrder)) == Err(TlvOutOfOrder)
  {
    NumbersStep(num, recs);
    hide Numbers;
  }

  predicate SmallKinds(recs: seq<Record>) {
    forall i :: 0 <= i < |recs| ==> recs[i].kind <= TWO53
  }

  lemma SmallAscend(num: ToNumber, recs: seq<Record>)
    requires Double(num) && SmallKinds(recs)
    ensures NumbersAscend(num, recs) <==> StrictlyAscending(recs, KindOf())
  {
    assert forall i :: 0 <= i < |recs| ==> num(recs[i].kind) == recs[i].kind == KindOf()(recs[i]);
    if StrictlyAscending(recs, KindOf()) {
      forall i, j | 0 <= i < j < |recs|
        ensures num(recs[i].kind) < num(recs[j].kind)
      {
        assert KindOf()(recs[i]) < KindOf()(recs[j]);
      }
    }
  }

  /** The assembler's completed transition passes the strict reader's record checks exactly
      when the converted kinds of the merged records are in order; with kinds up to 2^53, when
      the partial proof repeats no kind of its own. */
  lemma CompletedParsesIff(num: ToNumber, partial: bytes, sibling: bytes)
    requires Double(num) && Completed(partial, sibling).Some? && |Completed(partial, sibling).value| <= TWO53
    ensures Records(partial).Some? && Records(sibling).Some?
    ensures var merged := Merged(Records(partial).value, Records(sibling).value);
      && ParsedProof(num, Completed(partial, sibling).value) ==
           (if NumbersAscend(num, merged) then Ok(Numbers(num, merged)) else Err(TlvOutOfOrder))
      && (SmallKinds(merged) ==>
          (NumbersAscend(num, merged) <==> RepeatsAnchors(Records(partial).value)))
  {
    hide ParsedTlv, RecordsBytes, Double, Numbers, Records, WithoutAnchors, Anchors, SortBy, SmallKinds, RepeatsAnchors,
      NumbersAscend, InOrder;
    var p, q := Records(partial).value, Records(sibling).value;
    var merged := Merged(p, q);
    assert Completed(partial, sibling).value == PROOF_MAGIC + RecordsBytes(merged);
    assert (PROOF_MAGIC + RecordsBytes(merged))[4..] == RecordsBytes(merged);
    RecordsParse(num, merged, None);
    InOrderIff(num, merged, None);
    MergedAscendsIff(p, q);
    if SmallKinds(merged) { SmallAscend(num, merged); }
  }

  /** An input that does not re-encode to itself: a proof with one empty record of kind
      2^53 + 1 is accepted, and its kind comes out as 2^53. */
  lemma ReencodeLoses(num: ToNumber)
    requires Double(num)
    ensures var blob := PROOF_MAGIC + RecordsBytes([Record(0x20_0000_0000_0001, [])]);
      && ParsedProof(num, blob) == Ok([NumberRecord(0x20_0000_0000_0000, [])])
      && PROOF_MAGIC + NumberRecordsBytes([NumberRecord(0x20_0000_0000_0000, [])]) != blob
  {
    var recs := [Record(TWO53 + 1, [])];
    var blob := PROOF_MAGIC + RecordsBytes(recs);
    assert blob[4..] == RecordsBytes(recs) by { hide RecordsBytes; }
    OneRecordLength(TWO53 + 1);
    RecordsParse(num, recs, None);
    assert InOrder(num, recs, None);
    assert Numbers(num, recs) == [NumberRecord(TWO53, [])];
    hide ParsedTlv, RecordsBytes, NumberRecordsBytes, Records, Double, Numbers;
    var read := ReencodeIff(num, blob);
    assert ParsedProof(num, blob).Ok?;
    RecordsRoundTrip(recs);
    RecordsOf(recs);
    assert read == recs && !ExactKinds(num, recs);
  }

  lemma RecordsOf(recs: seq<Record>)
    ensures Records(PROOF_MAGIC + RecordsBytes(recs)) == LooseRecords(RecordsBytes(recs))
  {
    assert (PROOF_MAGIC + RecordsBytes(recs))[4..] == RecordsBytes(recs);
    hide RecordsBytes, LooseRecords;
  }

  lemma OneRecordLength(kind: u64)
    ensures |RecordsBytes([Record(kind, [])])| <= 10
  {
    assert [Record(kind, [])][1..] == [];
  }
}
