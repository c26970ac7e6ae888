/** The live data-availability bundle: a fixed header, then sections of an id, a 32-bit
    size and the content; and the root that a claim commits to. */
module LiveDa {
  import opened Options
  import opened Bytes
  import opened Sorting

  const MAGIC: bytes := [83, 85, 83, 68, 68, 65, 48, 49]
  const VERSION: Byte := 1
  const HEADER_SIZE := 85

  type Word = w: bytes | |w| == 32 witness seq(32, _ => 0)

  /** SHA-256. */
  type Digest = bytes -> Word

  datatype Section = Section(id: Byte, content: bytes)
  datatype Bundle = Bundle(claimId: Word, stateEpoch: u64, sections: seq<Section>)
  datatype DaError = BadMagic | UnsupportedVersion(version: Byte) | Truncated | SizeMismatch

  function IdOf(): Section -> int {
    (s: Section) => s.id
  }

  function New(claimId: Word, stateEpoch: u64, sections: seq<Section>): Bundle {
    Bundle(claimId, stateEpoch, SortBy(sections, IdOf()))
  }

  // -------------------------------------------------------------------- encoding

  /** A length cast to 32 bits: it is cut off, not refused. */
  function SizeField(n: nat): (r: bytes)
    ensures |r| == 4
  {
    ToBE(n % TWO32, 4)
  }

  function Wire(s: Section): bytes {
    [s.id] + SizeField(|s.content|) + s.content
  }

  function SectionsWire(sections: seq<Section>): bytes {
    if |sections| == 0 then [] else Wire(sections[0]) + SectionsWire(sections[1..])
  }

  function Digests(sha: Digest, sections: seq<Section>): (r: bytes)
    ensures |r| == 32 * |sections|
  {
    if |sections| == 0 then [] else sha(Wire(sections[0])) + Digests(sha, sections[1..])
  }

  function RootOf(sha: Digest, sections: seq<Section>): Word {
    sha(Digests(sha, sections))
  }

  /** The header for a root field and a body. */
  function Header(claimId: Word, stateEpoch: u64, root: Word, size: nat): (r: bytes)
    ensures |r| == HEADER_SIZE
  {
    MAGIC + [VERSION] + claimId + ToBE(stateEpoch, 8) + root + SizeField(size)
  }

  /** The wire form of a bundle whose header declares a root. */
  function Declaring(b: Bundle, root: Word): bytes {
    var body := SectionsWire(b.sections);
    Header(b.claimId, b.stateEpoch, root, |body|) + body
  }

  function Encoded(sha: Digest, b: Bundle): bytes {
    Declaring(b, RootOf(sha, b.sections))
  }

  lemma {:induction false} WireSplit(a: seq<Section>, s: Section)
    ensures SectionsWire(a + [s]) == SectionsWire(a) + Wire(s)
  {
    hide Wire;
    if |a| == 0 {
      assert a + [s] == [s] && [s][1..] == [];
    } else {
      assert (a + [s])[1..] == a[1..] + [s];
      WireSplit(a[1..], s);
    }
  }

  lemma {:induction false} DigestsSplit(sha: Digest, a: seq<Section>, s: Section)
    ensures Digests(sha, a + [s]) == Digests(sha, a) + sha(Wire(s))
  {
    hide Wire;
    if |a| == 0 {
      assert a + [s] == [s] && [s][1..] == [];
    } else {
      assert (a + [s])[1..] == a[1..] + [s];
      DigestsSplit(sha, a[1..], s);
    }
  }

  method LiveDaRoot(sha: Digest, sections: seq<Section>) returns (root: Word)
    ensures root == RootOf(sha, sections)
  {
    hide Wire;
    var concat: bytes := [];
    for i := 0 to |sections|
      invariant concat == Digests(sha, sections[..i])
    {
      DigestsSplit(sha, sections[..i], sections[i]);
      assert sections[..i + 1] == sections[..i] + [sections[i]];
      concat := concat + sha(Wire(sections[i]));
    }
    assert sections[..|sections|] == sections;
    root := sha(concat);
  }

  method Encode(sha: Digest, b: Bundle) returns (out: bytes)
    ensures out == Encoded(sha, b)
  {
    hide Wire, RootOf, SizeField;
    var body: bytes := [];
    for i := 0 to |b.sections|
      invariant body == SectionsWire(b.sections[..i])
    {
      WireSplit(b.sections[..i], b.sections[i]);
      assert b.sections[..i + 1] == b.sections[..i] + [b.sections[i]];
      body := body + Wire(b.sections[i]);
    }
    assert b.sections[..|b.sections|] == b.sections;
    out := MAGIC;
    out := out + [VERSION];
    out := out + b.claimId;
    out := out + ToBE(b.stateEpoch, 8);
    var root := LiveDaRoot(sha, b.sections);
    out := out + root;
    out := out + SizeField(|body|);
    out := out + body;
  }

  // -------------------------------------------------------------------- decoding

  function DecodedSections(body: bytes): Result<seq<Section>, DaError> {
    if |body| == 0 then Ok([])
    else if |body| < 5 then Err(Truncated)
    else
      var end := 5 + BE(body[1..5]);
      if end > |body| then Err(Truncated) else
      Prepend(Section(body[0], body[5..end]), DecodedSections(body[end..]))
  }

  function Prepend(s: Section, rest: Result<seq<Section>, DaError>): Result<seq<Section>, DaError> {
    if rest.Ok? then Ok([s] + rest.value) else rest
  }

  function Decoded(data: bytes): Result<(Bundle, Word), DaError> {
    if |data| < HEADER_SIZE then Err(Truncated)
    else if data[..8] != MAGIC then Err(BadMagic)
    else if data[8] != VERSION then Err(UnsupportedVersion(data[8]))
    else if |data| - HEADER_SIZE != BE(data[81..85]) then Err(SizeMismatch)
    else
      match DecodedSections(data[HEADER_SIZE..])
      case Err(e) => Err(e)
      case Ok(sections) => Ok((Bundle(data[9..41], EpochOf(data), sections), data[49..81]))
  }

  function EpochOf(data: bytes): u64
    requires |data| >= HEADER_SIZE
  {
    BEBound(data[41..49]);
    Pow256Of8();
    BE(data[41..49])
  }

  lemma Pow256Of8()
    ensures Pow256(8) == TWO64
  {
    Pow256Of4();
    hide Pow256;
    Pow256Add(4, 4);
  }

  function Joined(a: seq<Section>, rest: Result<seq<Section>, DaError>): Result<seq<Section>, DaError> {
    if rest.Ok? then Ok(a + rest.value) else rest
  }

  lemma DecodeUnfold(body: bytes)
    requires |body| >= 5
    ensures var end := 5 + BE(body[1..5]);
      DecodedSections(body) ==
        if end > |body| then Err(Truncated) else Prepend(Section(body[0], body[5..end]), DecodedSections(body[end..]))
  {
    hide BE, Prepend;
  }

  lemma JoinedPrepend(a: seq<Section>, s: Section, rest: Result<seq<Section>, DaError>)
    ensures Joined(a, Prepend(s, rest)) == Joined(a + [s], rest)
  {
    if rest.Ok? { assert a + ([s] + rest.value) == a + [s] + rest.value; }
  }

  lemma DecodeShort(a: seq<Section>, body: bytes)
    requires |body| < 5
    ensures Joined(a, DecodedSections(body)) == if |body| == 0 then Ok(a) else Err(Truncated)
  {
    assert a + [] == a;
  }

  /** One turn of the decoding loop. */
  lemma DecodeStep(a: seq<Section>, body: bytes)
    requires |body| >= 5
    ensures var end := 5 + BE(body[1..5]);
      Joined(a, DecodedSections(body)) ==
        if end > |body| then Err(Truncated)
          else Joined(a + [Section(body[0], body[5..end])], DecodedSections(body[end..]))
  {
    var end := 5 + BE(body[1..5]);
    DecodeUnfold(body);
    hide BE, DecodedSections, Prepend;
    if end <= |body| { JoinedPrepend(a, Section(body[0], body[5..end]), DecodedSections(body[end..])); }
  }

  method Decode(data: bytes) returns (r: Result<(Bundle, Word), DaError>)
    ensures r == Decoded(data)
  {
    hide BE, DecodedSections;
    if |data| < HEADER_SIZE { return Err(Truncated); }
    if data[..8] != MAGIC { return Err(BadMagic); }
    if data[8] != VERSION { return Err(UnsupportedVersion(data[8])); }
    var size := BE(data[81..85]);
    var body := data[HEADER_SIZE..];
    if |body| != size { return Err(SizeMismatch); }
    var sections: seq<Section> := [];
    var i := 0;
    assert body[0..] == body;
    DecodeStart(body);
    while i < |body|
      invariant 0 <= i <= |body|
      invariant DecodedSections(body) == Joined(sections, DecodedSections(body[i..]))
      decreases |body| - i
    {
      if i + 5 > |body| {
        DecodeShort(sections, body[i..]);
        return Err(Truncated);
      }
      DecodeStep(sections, body[i..]);
      var start := i + 5;
      assert body[i..][1..5] == body[i + 1..start];
      var end := start + BE(body[i + 1..start]);
      if end > |body| { return Err(Truncated); }
      assert body[i..][5..end - i] == body[start..end] && body[i..][end - i..] == body[end..];
      sections := sections + [Section(body[i], body[start..end])];
      i := end;
    }
    DecodeShort(sections, body[i..]);
    r := Ok((Bundle(data[9..41], EpochOf(data), sections), data[49..81]));
  }

  lemma DecodeStart(body: bytes)
    ensures DecodedSections(body) == Joined([], DecodedSections(body))
  {
    hide DecodedSections;
    var r := DecodedSections(body);
    if r.Ok? { assert [] + r.value == r.value; }
  }

  // ------------------------------------------------------------------ both ways

  lemma SizeRoundTrip(n: nat)
    ensures BE(SizeField(n)) == n % TWO32
  {
    Pow256Of4();
    hide Pow256;
    BEOfToBE(n % TWO32, 4);
  }

  lemma WireParts(s: Section, rest: bytes)
    ensures var body, end := Wire(s) + rest, 5 + |s.content|;
      |body| == end + |rest| && body[0] == s.id && body[1..5] == SizeField(|s.content|) && body[5..end] == s.content
        && body[end..] == rest
  {
    hide SizeField;
  }

  lemma WireDecodes(s: Section, rest: bytes)
    requires |s.content| < TWO32
    ensures DecodedSections(Wire(s) + rest) == Prepend(s, DecodedSections(rest))
  {
    WireParts(s, rest);
    hide *;
    SizeRoundTrip(|s.content|);
    DecodeUnfold(Wire(s) + rest);
  }

  lemma {:induction false} SectionsRoundTrip(sections: seq<Section>)
    requires |SectionsWire(sections)| < TWO32
    ensures DecodedSections(SectionsWire(sections)) == Ok(sections)
  {
    if |sections| > 0 {
      WireParts(sections[0], SectionsWire(sections[1..]));
      hide DecodedSections, Wire;
      WireDecodes(sections[0], SectionsWire(sections[1..]));
      SectionsRoundTrip(sections[1..]);
      assert [sections[0]] + sections[1..] == sections;
    }
  }

  /** Where the header's fields are. */
  lemma HeaderFields(claimId: Word, stateEpoch: u64, root: Word, size: nat, body: bytes)
    ensures var data := Header(claimId, stateEpoch, root, size) + body;
      && data[..8] == MAGIC && data[8] == VERSION && data[9..41] == claimId && data[41..49] == ToBE(stateEpoch, 8)
      && data[49..81] == root && data[81..85] == SizeField(size) && data[HEADER_SIZE..] == body
  {
    hide SizeField, ToBE;
  }

  lemma DecodeOfHeader(claimId: Word, stateEpoch: u64, root: Word, size: nat, body: bytes)
    ensures Decoded(Header(claimId, stateEpoch, root, size) + body) ==
      if |body| != size % TWO32 then Err(SizeMismatch) else
      match DecodedSections(body) { case Err(e) => Err(e) case Ok(sections) => Ok((Bundle(claimId, stateEpoch,
          sections), root)) }
  {
    hide SizeField, ToBE, DecodedSections, Header, BE, Pow256;
    HeaderFields(claimId, stateEpoch, root, size, body);
    SizeRoundTrip(size);
    Pow256Of8();
    BEOfToBE(stateEpoch, 8);
  }

  /** Decoding an encoded bundle gives back the bundle with its own root, exactly when the
      sections fit the 32-bit size field; otherwise the size is refused. */
  lemma DecodeOfEncode(sha: Digest, b: Bundle)
    ensures |SectionsWire(b.sections)| < TWO32 ==> Decoded(Encoded(sha, b)) == Ok((b, RootOf(sha, b.sections)))
    ensures |SectionsWire(b.sections)| >= TWO32 ==> Decoded(Encoded(sha, b)) == Err(SizeMismatch)
  {
    hide SectionsWire, DecodedSections, Decoded, RootOf, Header;
    var body := SectionsWire(b.sections);
    DecodeOfHeader(b.claimId, b.stateEpoch, RootOf(sha, b.sections), |body|, body);
    if |body| < TWO32 { SectionsRoundTrip(b.sections); }
  }

  lemma SizeIs(size: bytes, n: nat)
    requires |size| == 4 && BE(size) == n
    ensures n < TWO32 && SizeField(n) == size
  {
    BEBound(size);
    Pow256Of4();
    hide Pow256;
    ToBEOfBE(size);
  }

  lemma WireOf(body: bytes, end: nat)
    requires 5 <= end <= |body| && BE(body[1..5]) == end - 5
    ensures Wire(Section(body[0], body[5..end])) == body[..end]
  {
    hide BE, SizeField;
    SizeIs(body[1..5], end - 5);
    assert body[..end] == [body[0]] + body[1..5] + body[5..end];
  }

  lemma DecodedShape(body: bytes)
    requires |body| > 0 && DecodedSections(body).Ok?
    ensures |body| >= 5
    ensures var end := 5 + BE(body[1..5]);
      && end <= |body| && DecodedSections(body[end..]).Ok?
      && DecodedSections(body).value == [Section(body[0], body[5..end])] + DecodedSections(body[end..]).value
  {
    hide BE;
  }

  lemma NoSections()
    ensures DecodedSections([]) == Ok([]) && SectionsWire([]) == []
  {
  }

  lemma ConsWire(s: Section, rest: seq<Section>)
    ensures SectionsWire([s] + rest) == Wire(s) + SectionsWire(rest)
  {
    assert ([s] + rest)[1..] == rest;
    hide Wire;
  }

  lemma {:induction false} SectionsCanonical(body: bytes)
    requires DecodedSections(body).Ok?
    ensures SectionsWire(DecodedSections(body).value) == body
    decreases |body|
  {
    hide *;
    if |body| == 0 {
      NoSections();
    } else {
      DecodedShape(body);
      var end := 5 + BE(body[1..5]);
      SectionsCanonical(body[end..]);
      WireOf(body, end);
      ConsWire(Section(body[0], body[5..end]), DecodedSections(body[end..]).value);
      assert body == body[..end] + body[end..];
    }
  }

  lemma DecodedFields(data: bytes)
    requires Decoded(data).Ok?
    ensures |data| >= HEADER_SIZE && data[..8] == MAGIC && data[8] == VERSION
      && BE(data[81..85]) == |data| - HEADER_SIZE
    ensures var (b, declared) := Decoded(data).value;
      && b.claimId == data[9..41] && b.stateEpoch == EpochOf(data) && declared == data[49..81]
      && DecodedSections(data[HEADER_SIZE..]) == Ok(b.sections)
  {
    hide BE, DecodedSections, EpochOf;
  }

  lemma Pieces(data: bytes)
    requires |data| >= HEADER_SIZE
    ensures data == data[..8] + [data[8]] + data[9..41] + data[41..49] + data[49..81] + data[81..85]
      + data[HEADER_SIZE..]
  {
  }

  /** Whatever is accepted re-encodes to itself with its declared root. */
  lemma EncodeOfDecode(data: bytes)
    requires Decoded(data).Ok?
    ensures var (b, declared) := Decoded(data).value; Declaring(b, declared) == data
  {
    DecodedFields(data);
    hide BE, SizeField, ToBE, SectionsWire, DecodedSections, Decoded;
    SectionsCanonical(data[HEADER_SIZE..]);
    SizeIs(data[81..85], |data[HEADER_SIZE..]|);
    ToBEOfBE(data[41..49]);
    Pieces(data);
  }

  /** An accepted byte string is the encoding of its bundle exactly when the declared root
      is the recomputed one: what the challenger compares is all that decoding leaves open. */
  lemma HonestIff(sha: Digest, data: bytes)
    requires Decoded(data).Ok?
    ensures var (b, declared) := Decoded(data).value; Encoded(sha, b) == data <==> declared == RootOf(sha, b.sections)
  {
    var (b, declared) := Decoded(data).value;
    EncodeOfDecode(data);
    var body := SectionsWire(b.sections);
    HeaderFields(b.claimId, b.stateEpoch, declared, |body|, body);
    HeaderFields(b.claimId, b.stateEpoch, RootOf(sha, b.sections), |body|, body);
    hide Decoded, Header, SectionsWire, RootOf;
  }

  // --------------------------------------------------------------------- the root

  predicate Collide(sha: Digest, a: bytes, b: bytes) {
    a != b && sha(a) == sha(b)
  }

  ghost predicate SectionCollides(sha: Digest, a: seq<Section>, b: seq<Section>) {
    exists i :: 0 <= i < |a| && i < |b| && Collide(sha, Wire(a[i]), Wire(b[i]))
  }

  lemma WireInjective(a: Section, b: Section)
    requires Wire(a) == Wire(b)
    ensures a == b
  {
    hide SizeField;
    assert Wire(a)[0] == a.id && Wire(b)[0] == b.id;
    assert Wire(a)[5..] == a.content && Wire(b)[5..] == b.content;
  }

  lemma {:induction false} DigestsBind(sha: Digest, a: seq<Section>, b: seq<Section>)
    requires Digests(sha, a) == Digests(sha, b)
    ensures a == b || SectionCollides(sha, a, b)
  {
    assert |a| == |b|;
    if |a| > 0 {
      hide Wire;
      assert Digests(sha, a)[..32] == sha(Wire(a[0])) && Digests(sha, b)[..32] == sha(Wire(b[0]));
      assert Digests(sha, a)[32..] == Digests(sha, a[1..]) && Digests(sha, b)[32..] == Digests(sha, b[1..]);
      DigestsBind(sha, a[1..], b[1..]);
      if Wire(a[0]) != Wire(b[0]) {
        assert Collide(sha, Wire(a[0]), Wire(b[0]));
      } else if a[1..] == b[1..] {
        WireInjective(a[0], b[0]);
        assert a == [a[0]] + a[1..] && b == [b[0]] + b[1..];
      } else {
        var i :| 0 <= i < |a[1..]| && i < |b[1..]| && Collide(sha, Wire(a[1..][i]), Wire(b[1..][i]));
        assert Collide(sha, Wire(a[i + 1]), Wire(b[i + 1]));
      }
    }
  }

  /** The root commits to the whole list: a missing, added, moved or changed section gives
      another root, or SHA-256 collides on two of the hashed strings. */
  lemma RootBinds(sha: Digest, a: seq<Section>, b: seq<Section>)
    requires RootOf(sha, a) == RootOf(sha, b)
    ensures a == b || SectionCollides(sha, a, b) || Collide(sha, Digests(sha, a), Digests(sha, b))
  {
    hide Digests, SectionCollides;
    if Digests(sha, a) == Digests(sha, b) { DigestsBind(sha, a, b); }
  }

  // ----------------------------------------------------------------- canonical order

  function Lookup(sections: seq<Section>, id: Byte): Option<bytes> {
    if |sections| == 0 then None
    else if sections[0].id == id then Some(sections[0].content)
    else Lookup(sections[1..], id)
  }

  predicate DistinctIds(sections: seq<Section>) {
    forall i, j :: 0 <= i < j < |sections| ==> sections[i].id != sections[j].id
  }

  lemma {:induction false} LookupFound(sections: seq<Section>, id: Byte) returns (i: nat)
    requires Lookup(sections, id).Some?
    ensures i < |sections| && sections[i] == Section(id, Lookup(sections, id).value)
  {
    if sections[0].id == id {
      i := 0;
    } else {
      var k := LookupFound(sections[1..], id);
      i := k + 1;
    }
  }

  /** However the sections were given, the bundle holds the same ones, in ascending order. */
  lemma NewSorts(claimId: Word, stateEpoch: u64, sections: seq<Section>)
    ensures var b := New(claimId, stateEpoch, sections);
      && b.claimId == claimId && b.stateEpoch == stateEpoch
      && Ascending(b.sections, IdOf()) && multiset(b.sections) == multiset(sections)
  {
    SortAscends(sections, IdOf());
  }

  /** With distinct ids each section is found under its id, and nothing else is. */
  lemma NewHolds(claimId: Word, stateEpoch: u64, sections: seq<Section>, id: Byte, content: bytes)
    requires DistinctIds(sections)
    ensures Lookup(New(claimId, stateEpoch, sections).sections, id) == Some(content)
      <==> Section(id, content) in sections
  {
    var sorted := New(claimId, stateEpoch, sections).sections;
    SortAscends(sections, IdOf());
    hide SortBy;
    assert Section(id, content) in multiset(sorted) <==> Section(id, content) in multiset(sections);
    if Section(id, content) in sections {
      var i :| 0 <= i < |sorted| && sorted[i] == Section(id, content);
      if Lookup(sorted, id).None? {
        NotFound(sorted, id, i);
      } else {
        var k := LookupFound(sorted, id);
        OneOf(sections, sorted[k], sorted);
        SameSection(sections, Section(id, content), sorted[k]);
      }
    } else if Lookup(sorted, id) == Some(content) {
      var k := LookupFound(sorted, id);
    }
  }

  lemma OneOf(sections: seq<Section>, s: Section, sorted: seq<Section>)
    requires multiset(sorted) == multiset(sections) && s in sorted
    ensures s in sections
  {
    assert s in multiset(sections);
  }

  lemma SameSection(sections: seq<Section>, s: Section, t: Section)
    requires DistinctIds(sections) && s in sections && t in sections && s.id == t.id
    ensures s == t
  {
  }

  lemma {:induction false} NotFound(sections: seq<Section>, id: Byte, i: nat)
    requires Lookup(sections, id).None? && i < |sections|
    ensures sections[i].id != id
  {
    if i > 0 { NotFound(sections[1..], id, i - 1); }
  }
}
