/** The oracle announcement on the wire: three nested messages, and their strict parser, which
    checks the length of the descriptor and skips it. */
module Announcements {
  import opened Options
  import opened Bytes
  import opened Codec
  import opened Tlv

  const TYPE_ORACLE_EVENT: u64 := 55330
  const TYPE_ORACLE_ANNOUNCEMENT: u64 := 55332
  const TYPE_DESCRIPTOR: u64 := 55306

  datatype ParsedAnnouncement = ParsedAnnouncement(sig: Sig64, pubkey: Word32, points: seq<Word32>, maturity: u32,
                                                   eventId: bytes)

  // -------------------------------------------------------------------- encoding

  /** `digit_decomposition_event_descriptor_v0`, without its header; the precision is a
      two's-complement number. */
  function DescriptorBody(base: nat, signed: bool, unit: bytes, precision: int, digits: nat): bytes
    requires Fits(unit)
  {
    ToBE(base, 2) + ([if signed then 1 else 0] + (VarBytes(unit) + (ToBE(precision % TWO32, 4) + ToBE(digits, 2))))
  }

  function Words(points: seq<Word32>): (r: bytes)
    ensures |r| == 32 * |points|
  {
    if |points| == 0 then [] else points[0] + Words(points[1..])
  }

  function EventTail(descriptor: bytes, eventId: bytes): bytes
    requires Fits(descriptor) && Fits(eventId)
  {
    TlvBytes(TYPE_DESCRIPTOR, descriptor) + VarBytes(eventId)
  }

  function EventBody(points: seq<Word32>, maturity: u32, descriptor: bytes, eventId: bytes): bytes
    requires Fits(descriptor) && Fits(eventId)
  {
    ToBE(|points| % 0x1_0000, 2) + (Words(points) + (ToBE(maturity, 4) + EventTail(descriptor, eventId)))
  }

  predicate Publishable(a: ParsedAnnouncement, descriptor: bytes) {
    && Fits(descriptor) && Fits(a.eventId) && Fits(EventBody(a.points, a.maturity, descriptor, a.eventId))
    && Fits(a.sig + (a.pubkey + TlvBytes(TYPE_ORACLE_EVENT, EventBody(a.points, a.maturity, descriptor, a.eventId))))
  }

  function OuterBody(a: ParsedAnnouncement, descriptor: bytes): bytes
    requires Publishable(a, descriptor)
  {
    a.sig + (a.pubkey + TlvBytes(TYPE_ORACLE_EVENT, EventBody(a.points, a.maturity, descriptor, a.eventId)))
  }

  function AnnouncementBytes(a: ParsedAnnouncement, descriptor: bytes): bytes
    requires Publishable(a, descriptor)
  {
    TlvBytes(TYPE_ORACLE_ANNOUNCEMENT, OuterBody(a, descriptor))
  }

  lemma {:induction false} WordsSnoc(points: seq<Word32>, i: nat)
    requires i < |points|
    ensures Words(points[..i + 1]) == Words(points[..i]) + points[i]
  {
    if i == 0 {
      assert points[..1] == [points[0]];
    } else {
      WordsSnoc(points[1..], i - 1);
      assert points[1..][..i] == points[..i + 1][1..] && points[1..][..i - 1] == points[..i][1..];
      assert Words(points[..i + 1]) == points[0] + (Words(points[..i][1..]) + points[i]);
    }
  }

  method WriteDescriptor(base: nat, signed: bool, unit: bytes, precision: int, digits: nat) returns (r: bytes)
    requires base < 0x1_0000 && digits < 0x1_0000 && Fits(unit)
    ensures r == DescriptorBody(base, signed, unit, precision, digits)
  {
    hide BigSizeBytes, ToBE, VarBytes;
    Pow256Values();
    var v := new Encoder();
    v.PutUint(base, 2);
    v.PutU8(if signed then 1 else 0);
    v.PutVarBytes(unit);
    v.PutUint(precision % TWO32, 4);
    v.PutUint(digits, 2);
    r := v.buf;
  }

  method WriteEvent(points: seq<Word32>, maturity: u32, descriptor: bytes, eventId: bytes) returns (r: bytes)
    requires Fits(descriptor) && Fits(eventId)
    ensures r == EventBody(points, maturity, descriptor, eventId)
  {
    hide BigSizeBytes, ToBE, VarBytes, Words;
    Pow256Values();
    var v := new Encoder();
    v.PutUint(|points| % 0x1_0000, 2);
    NoWords(points);
    ghost var head := v.buf;
    for i := 0 to |points|
      invariant v.buf == head + Words(points[..i])
    {
      WordsSnoc(points, i);
      v.PutRaw(points[i]);
    }
    assert points[..|points|] == points;
    v.PutUint(maturity, 4);
    var d := WriteTlv(TYPE_DESCRIPTOR, descriptor);
    v.PutRaw(d);
    v.PutVarBytes(eventId);
    r := v.buf;
  }

  lemma NoWords(points: seq<Word32>)
    ensures Words(points[..0]) == []
  {
  }

  method WriteAnnouncement(a: ParsedAnnouncement, descriptor: bytes) returns (r: bytes)
    requires Publishable(a, descriptor)
    ensures r == AnnouncementBytes(a, descriptor)
  {
    hide BigSizeBytes, VarBytes, EventBody, TlvBytes;
    var body := WriteEvent(a.points, a.maturity, descriptor, a.eventId);
    var event := WriteTlv(TYPE_ORACLE_EVENT, body);
    var v := new Encoder();
    v.PutRaw(a.sig);
    v.PutRaw(a.pubkey);
    v.PutRaw(event);
    assert v.buf == a.sig + (a.pubkey + event);
    r := WriteTlv(TYPE_ORACLE_ANNOUNCEMENT, v.buf);
  }

  // -------------------------------------------------------------------- parsing

  function ReadWords(s: bytes, n: nat): Read<seq<Word32>> {
    if n == 0 then Read(Ok([]), s) else
    var first := ReadTake(s, 32);
    if first.result.Err? then Read(Err(first.result.error), first.rest) else
    Prepend([first.result.value], ReadWords(first.rest, n - 1))
  }

  function ParseTail(utf8: Utf8, sig: Sig64, key: Word32, points: seq<Word32>, maturity: u32,
                     s: bytes): Result<ParsedAnnouncement, ParseError> {
    var kind := ReadBigSize(s);
    if kind.result.Err? then Err(Decode(kind.result.error)) else
    if kind.result.value != TYPE_DESCRIPTOR then Err(WrongType(kind.result.value)) else
    var descriptor := ReadVarBytes(kind.rest);
    if descriptor.result.Err? then Err(Decode(descriptor.result.error)) else
    var id := ReadString(utf8, descriptor.rest);
    if id.result.Err? then Err(Decode(id.result.error)) else
    if id.rest != [] then Err(LengthMismatch) else
    Ok(ParsedAnnouncement(sig, key, points, maturity, id.result.value))
  }

  function ParseEvent(utf8: Utf8, sig: Sig64, key: Word32, s: bytes): Result<ParsedAnnouncement, ParseError> {
    var count := ReadUint(s, 2);
    if count.result.Err? then Err(Decode(count.result.error)) else
    var points := ReadWords(count.rest, count.result.value);
    if points.result.Err? then Err(Decode(points.result.error)) else
    var maturity := ReadUint(points.rest, 4);
    if maturity.result.Err? then Err(Decode(maturity.result.error)) else
    MaturityBound(points.rest);
    ParseTail(utf8, sig, key, points.result.value, maturity.result.value, maturity.rest)
  }

  lemma MaturityBound(s: bytes)
    ensures ReadUint(s, 4).result.Ok? ==> ReadUint(s, 4).result.value < TWO32
  {
    if |s| >= 4 { BEBound(s[..4]); }
    Pow256Of4();
    hide BE;
  }

  function ParseOuter(utf8: Utf8, s: bytes): Result<ParsedAnnouncement, ParseError> {
    var sig := ReadTake(s, 64);
    if sig.result.Err? then Err(Decode(sig.result.error)) else
    var key := ReadTake(sig.rest, 32);
    if key.result.Err? then Err(Decode(key.result.error)) else
    var kind := ReadBigSize(key.rest);
    if kind.result.Err? then Err(Decode(kind.result.error)) else
    if kind.result.value != TYPE_ORACLE_EVENT then Err(WrongType(kind.result.value)) else
    var event := ReadVarBytes(kind.rest);
    if event.result.Err? then Err(Decode(event.result.error)) else
    if event.rest != [] then Err(LengthMismatch) else
    ParseEvent(utf8, sig.result.value, key.result.value, event.result.value)
  }

  function ParseAnnouncement(utf8: Utf8, s: bytes): Result<ParsedAnnouncement, ParseError> {
    var kind := ReadBigSize(s);
    if kind.result.Err? then Err(Decode(kind.result.error)) else
    if kind.result.value != TYPE_ORACLE_ANNOUNCEMENT then Err(WrongType(kind.result.value)) else
    var value := ReadVarBytes(kind.rest);
    if value.result.Err? then Err(Decode(value.result.error)) else
    if value.rest != [] then Err(LengthMismatch) else
    ParseOuter(utf8, value.result.value)
  }

  method TakeWords(d: Decoder, n: nat) returns (r: Result<seq<Word32>, DecodeError>)
    requires d.Valid()
    modifies d
    ensures d.Valid() && Read(r, d.Rest()) == ReadWords(old(d.Rest()), n)
  {
    hide ReadTake, Decoder.Rest;
    var words: seq<Word32> := [];
    PrependNone(ReadWords(d.Rest(), n));
    for i := 0 to n
      invariant d.Valid()
      invariant Prepend(words, ReadWords(d.Rest(), n - i)) == ReadWords(old(d.Rest()), n)
    {
      ghost var before := d.Rest();
      var w := d.Take(32);
      if w.Err? { return Err(w.error); }
      assert |w.value| == 32 by { TakeLength(before, 32); }
      PrependTwice(words, [w.value], ReadWords(d.Rest(), n - i - 1));
      words := words + [w.value];
    }
    assert words + [] == words;
    r := Ok(words);
  }

  method ParseEventBytes(utf8: Utf8, sig: Sig64, key: Word32, s: bytes)
      returns (r: Result<ParsedAnnouncement, ParseError>)
    ensures r == ParseEvent(utf8, sig, key, s)
  {
    hide ReadBigSize, ReadVarBytes, ReadString, ReadUint, ReadWords, ReadTake;
    var e := new Decoder(s);
    assert e.Rest() == s;
    var n := e.Uint(2);
    if n.Err? { return Err(Decode(n.error)); }
    var points := TakeWords(e, n.value);
    if points.Err? { return Err(Decode(points.error)); }
    MaturityBound(e.Rest());
    var maturity := e.Uint(4);
    if maturity.Err? { return Err(Decode(maturity.error)); }
    var kind := e.BigSize();
    if kind.Err? { return Err(Decode(kind.error)); }
    if kind.value != TYPE_DESCRIPTOR { return Err(WrongType(kind.value)); }
    var skipped := e.VarBytes();
    if skipped.Err? { return Err(Decode(skipped.error)); }
    var id := e.Text(utf8);
    if id.Err? { return Err(Decode(id.error)); }
    if !e.Done() { return Err(LengthMismatch); }
    r := Ok(ParsedAnnouncement(sig, key, points.value, maturity.value, id.value));
  }

  method ReadAnnouncement(utf8: Utf8, s: bytes) returns (r: Result<ParsedAnnouncement, ParseError>)
    ensures r == ParseAnnouncement(utf8, s)
  {
    hide ReadBigSize, ReadVarBytes, ReadTake, ParseEvent;
    var d := new Decoder(s);
    assert d.Rest() == s;
    var kind := d.BigSize();
    if kind.Err? { return Err(Decode(kind.error)); }
    if kind.value != TYPE_ORACLE_ANNOUNCEMENT { return Err(WrongType(kind.value)); }
    var value := d.VarBytes();
    if value.Err? { return Err(Decode(value.error)); }
    if !d.Done() { return Err(LengthMismatch); }
    var v := new Decoder(value.value);
    assert v.Rest() == value.value;
    var sig := v.Take(64);
    if sig.Err? { return Err(Decode(sig.error)); }
    assert |sig.value| == 64 by { TakeLength(value.value, 64); }
    ghost var afterSig := v.Rest();
    var key := v.Take(32);
    if key.Err? { return Err(Decode(key.error)); }
    assert |key.value| == 32 by { TakeLength(afterSig, 32); }
    var inner := v.BigSize();
    if inner.Err? { return Err(Decode(inner.error)); }
    if inner.value != TYPE_ORACLE_EVENT { return Err(WrongType(inner.value)); }
    var event := v.VarBytes();
    if event.Err? { return Err(Decode(event.error)); }
    if !v.Done() { return Err(LengthMismatch); }
    r := ParseEventBytes(utf8, sig.value, key.value, event.value);
  }

  // ------------------------------------------------------------------ both ways

  lemma {:induction false} WordsRoundTrip(points: seq<Word32>, after: bytes)
    ensures ReadWords(Words(points) + after, |points|) == Read(Ok(points), after)
  {
    if |points| == 0 {
      assert Words(points) + after == after;
    } else {
      WordsRoundTrip(points[1..], after);
      var s := Words(points) + after;
      assert s[..32] == points[0] && s[32..] == Words(points[1..]) + after;
      assert [points[0]] + points[1..] == points;
    }
  }

  lemma {:induction false} WordsCanonical(s: bytes, n: nat)
    requires ReadWords(s, n).result.Ok?
    ensures var r := ReadWords(s, n); |r.result.value| == n && s == Words(r.result.value) + r.rest
  {
    if n == 0 {
      assert s == [] + s;
    } else {
      WordsCanonical(s[32..], n - 1);
      var tail := ReadWords(s[32..], n - 1);
      var all := ReadWords(s, n).result.value;
      assert all[1..] == tail.result.value;
      assert s == s[..32] + s[32..];
    }
  }

  lemma TlvRoundTrip(typeId: u64, value: bytes, after: bytes)
    requires Fits(value)
    ensures ReadBigSize(TlvBytes(typeId, value) + after) == Read(Ok(typeId), VarBytes(value) + after)
    ensures ReadVarBytes(VarBytes(value) + after) == Read(Ok(value), after)
  {
    hide BigSizeBytes, VarBytes, ReadBigSize, ReadVarBytes;
    assert TlvBytes(typeId, value) + after == BigSizeBytes(typeId) + (VarBytes(value) + after);
    BigSizeRoundTrip(typeId, VarBytes(value) + after);
    VarBytesRoundTrip(value, after);
  }

  lemma TailRoundTrip(utf8: Utf8, a: ParsedAnnouncement, descriptor: bytes)
    requires Fits(descriptor) && Fits(a.eventId) && utf8(a.eventId)
    ensures ParseTail(utf8, a.sig, a.pubkey, a.points, a.maturity, EventTail(descriptor, a.eventId)) == Ok(a)
  {
    hide TlvBytes, VarBytes, ReadBigSize, ReadVarBytes, ReadString;
    TlvRoundTrip(TYPE_DESCRIPTOR, descriptor, VarBytes(a.eventId));
    assert VarBytes(a.eventId) + [] == VarBytes(a.eventId);
    StringRoundTrip(utf8, a.eventId, []);
  }

  lemma EventRoundTrip(utf8: Utf8, a: ParsedAnnouncement, descriptor: bytes)
    requires Fits(descriptor) && Fits(a.eventId) && utf8(a.eventId) && |a.points| < 0x1_0000
    ensures ParseEvent(utf8, a.sig, a.pubkey, EventBody(a.points, a.maturity, descriptor, a.eventId)) == Ok(a)
  {
    Pow256Values();
    SmallCount(|a.points|);
    hide ToBE, Words, EventTail, ReadUint, ReadWords, ParseTail, Pow256;
    var tail := EventTail(descriptor, a.eventId);
    UintRoundTrip(|a.points|, 2, Words(a.points) + (ToBE(a.maturity, 4) + tail));
    WordsRoundTrip(a.points, ToBE(a.maturity, 4) + tail);
    UintRoundTrip(a.maturity, 4, tail);
    TailRoundTrip(utf8, a, descriptor);
  }

  lemma OuterRoundTrip(utf8: Utf8, a: ParsedAnnouncement, descriptor: bytes)
    requires Publishable(a, descriptor)
    ensures ParseOuter(utf8, OuterBody(a, descriptor)) ==
      ParseEvent(utf8, a.sig, a.pubkey, EventBody(a.points, a.maturity, descriptor, a.eventId))
  {
    hide TlvBytes, VarBytes, ReadBigSize, ReadVarBytes, EventBody, ParseEvent;
    var event := TlvBytes(TYPE_ORACLE_EVENT, EventBody(a.points, a.maturity, descriptor, a.eventId));
    var s := OuterBody(a, descriptor);
    assert s[..64] == a.sig && s[64..] == a.pubkey + event && (a.pubkey + event)[..32] == a.pubkey
      && (a.pubkey + event)[32..] == event;
    TlvRoundTrip(TYPE_ORACLE_EVENT, EventBody(a.points, a.maturity, descriptor, a.eventId), []);
    assert event + [] == event;
    Nothing(EventBody(a.points, a.maturity, descriptor, a.eventId));
  }

  lemma Nothing(v: bytes)
    requires Fits(v)
    ensures VarBytes(v) + [] == VarBytes(v)
  {
    hide VarBytes;
  }

  lemma OuterFits(a: ParsedAnnouncement, descriptor: bytes)
    requires Publishable(a, descriptor)
    ensures Fits(OuterBody(a, descriptor))
  {
    hide TlvBytes, EventBody;
  }

  /** Parsing undoes publishing exactly for announcements whose count of nonce points fits
      sixteen bits. */
  lemma AnnouncementRoundTrip(utf8: Utf8, a: ParsedAnnouncement, descriptor: bytes)
    requires Publishable(a, descriptor) && utf8(a.eventId)
    ensures ParseAnnouncement(utf8, AnnouncementBytes(a, descriptor)) == Ok(a) <==> |a.points| < 0x1_0000
  {
    OuterFits(a, descriptor);
    hide TlvBytes, VarBytes, ReadBigSize, ReadVarBytes, ParseOuter, ParseEvent, OuterBody, EventBody, Fits;
    TlvRoundTrip(TYPE_ORACLE_ANNOUNCEMENT, OuterBody(a, descriptor), []);
    assert AnnouncementBytes(a, descriptor) + [] == AnnouncementBytes(a, descriptor);
    Nothing(OuterBody(a, descriptor));
    OuterRoundTrip(utf8, a, descriptor);
    if |a.points| < 0x1_0000 {
      EventRoundTrip(utf8, a, descriptor);
    } else if ParseEvent(utf8, a.sig, a.pubkey, EventBody(a.points, a.maturity, descriptor, a.eventId)) == Ok(a) {
      EventCount(utf8, a.sig, a.pubkey, EventBody(a.points, a.maturity, descriptor, a.eventId));
    }
  }

  lemma EventCount(utf8: Utf8, sig: Sig64, key: Word32, s: bytes)
    requires ParseEvent(utf8, sig, key, s).Ok?
    ensures |ParseEvent(utf8, sig, key, s).value.points| < 0x1_0000
  {
    var count := ReadUint(s, 2);
    CountBound(s);
    WordsCanonical(count.rest, count.result.value);
    hide ReadUint, ReadWords, ReadBigSize, ReadVarBytes, ReadString, Words;
  }

  lemma CountBound(s: bytes)
    ensures ReadUint(s, 2).result.Ok? ==> ReadUint(s, 2).result.value < 0x1_0000
  {
    if |s| >= 2 { BEBound(s[..2]); }
    Pow256Values();
    hide BE;
  }

  lemma TailCanonical(utf8: Utf8, sig: Sig64, key: Word32, points: seq<Word32>, maturity: u32, s: bytes)
      returns (descriptor: bytes)
    requires ParseTail(utf8, sig, key, points, maturity, s).Ok?
    ensures var a := ParseTail(utf8, sig, key, points, maturity, s).value;
      && a.sig == sig && a.pubkey == key && a.points == points && a.maturity == maturity && utf8(a.eventId)
      && Fits(descriptor) && Fits(a.eventId) && s == EventTail(descriptor, a.eventId)
  {
    hide BigSizeBytes, VarBytes, ReadBigSize, ReadVarBytes, ReadString;
    var kind := ReadBigSize(s);
    BigSizeCanonical(s);
    VarBytesCanonical(kind.rest);
    descriptor := ReadVarBytes(kind.rest).result.value;
    StringCanonical(utf8, ReadVarBytes(kind.rest).rest);
    var id := ReadString(utf8, ReadVarBytes(kind.rest).rest).result.value;
    assert VarBytes(id) + [] == VarBytes(id);
    assert s == BigSizeBytes(TYPE_DESCRIPTOR) + (VarBytes(descriptor) + VarBytes(id));
  }

  lemma EventCanonical(utf8: Utf8, sig: Sig64, key: Word32, s: bytes) returns (descriptor: bytes)
    requires ParseEvent(utf8, sig, key, s).Ok?
    ensures var a := ParseEvent(utf8, sig, key, s).value;
      && a.sig == sig && a.pubkey == key && utf8(a.eventId) && |a.points| < 0x1_0000
      && Fits(descriptor) && Fits(a.eventId) && s == EventBody(a.points, a.maturity, descriptor, a.eventId)
  {
    Pow256Values();
    var count := ReadUint(s, 2);
    CountBound(s);
    EventCount(utf8, sig, key, s);
    hide ToBE, BE, Words, EventTail, ReadUint, ReadWords, ParseTail, Pow256;
    UintCanonical(s, 2);
    WordsCanonical(count.rest, count.result.value);
    var points := ReadWords(count.rest, count.result.value);
    MaturityBound(points.rest);
    UintCanonical(points.rest, 4);
    var maturity := ReadUint(points.rest, 4);
    SmallCount(count.result.value);
    descriptor := TailCanonical(utf8, sig, key, points.result.value, maturity.result.value, maturity.rest);
  }

  /** Every accepted byte string is the announcement that was parsed from it, with some
      descriptor. */
  lemma AnnouncementCanonical(utf8: Utf8, s: bytes) returns (descriptor: bytes)
    requires ParseAnnouncement(utf8, s).Ok?
    ensures var a := ParseAnnouncement(utf8, s).value;
      utf8(a.eventId) && |a.points| < 0x1_0000 && Publishable(a, descriptor) && AnnouncementBytes(a, descriptor) == s
  {
    var kind := ReadBigSize(s);
    var value := ReadVarBytes(kind.rest);
    hide BigSizeBytes, VarBytes, ReadBigSize, ReadVarBytes, ParseOuter, EventBody;
    BigSizeCanonical(s);
    VarBytesCanonical(kind.rest);
    descriptor := OuterCanonical(utf8, value.result.value);
    assert VarBytes(value.result.value) + [] == VarBytes(value.result.value);
  }

  lemma OuterCanonical(utf8: Utf8, s: bytes) returns (descriptor: bytes)
    requires ParseOuter(utf8, s).Ok? && Fits(s)
    ensures var a := ParseOuter(utf8, s).value;
      utf8(a.eventId) && |a.points| < 0x1_0000 && Publishable(a, descriptor) && OuterBody(a, descriptor) == s
  {
    var sig, key := s[..64], s[64..][..32];
    var kind := ReadBigSize(s[64..][32..]);
    var event := ReadVarBytes(kind.rest);
    assert s == sig + (key + s[64..][32..]);
    hide BigSizeBytes, VarBytes, ReadBigSize, ReadVarBytes, ParseEvent, EventBody;
    BigSizeCanonical(s[64..][32..]);
    VarBytesCanonical(kind.rest);
    assert VarBytes(event.result.value) + [] == VarBytes(event.result.value);
    descriptor := EventCanonical(utf8, sig, key, event.result.value);
  }
}
