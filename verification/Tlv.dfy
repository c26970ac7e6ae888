/** The oracle attestation on the wire, and its strict parser. */
module Tlv {
  import opened Options
  import opened Bytes
  import opened Codec

  const TYPE_ORACLE_ATTESTATION: u64 := 55400

  type Word32 = w: bytes | |w| == 32 witness seq(32, _ => 0)
  type Sig64 = w: bytes | |w| == 64 witness seq(64, _ => 0)

  /** Signatures and outcomes are parallel, one a digit, most significant first. */
  datatype ParsedAttestation = ParsedAttestation(eventId: bytes, pubkey: Word32, signatures: seq<Sig64>,
                                                 outcomes: seq<bytes>)

  datatype ParseError = Decode(error: DecodeError) | WrongType(typeId: nat) | LengthMismatch

  // ------------------------------------------------------------------- encoding

  function TlvBytes(typeId: u64, value: bytes): bytes
    requires Fits(value)
  {
    BigSizeBytes(typeId) + VarBytes(value)
  }

  function Flat(sigs: seq<Sig64>): (r: bytes)
    ensures |r| == 64 * |sigs|
  {
    if |sigs| == 0 then [] else sigs[0] + Flat(sigs[1..])
  }

  predicate AllFit(ss: seq<bytes>) {
    forall i :: 0 <= i < |ss| ==> Fits(ss[i])
  }

  function Strings(ss: seq<bytes>): bytes
    requires AllFit(ss)
  {
    if |ss| == 0 then [] else VarBytes(ss[0]) + Strings(ss[1..])
  }

  /** The signature count, cut to sixteen bits, and the two lists. */
  function Lists(sigs: seq<Sig64>, outs: seq<bytes>): bytes
    requires AllFit(outs)
  {
    ToBE(|sigs| % 0x1_0000, 2) + (Flat(sigs) + Strings(outs))
  }

  function Body(a: ParsedAttestation): bytes
    requires Fits(a.eventId) && AllFit(a.outcomes)
  {
    VarBytes(a.eventId) + (a.pubkey + Lists(a.signatures, a.outcomes))
  }

  /** Lengths that a 64-bit address space can hold, and the parallel lists that the
      writer asserts. */
  predicate Writable(a: ParsedAttestation) {
    |a.signatures| == |a.outcomes| && Fits(a.eventId) && AllFit(a.outcomes) && Fits(Body(a))
  }

  function AttestationBytes(a: ParsedAttestation): bytes
    requires Writable(a)
  {
    TlvBytes(TYPE_ORACLE_ATTESTATION, Body(a))
  }

  lemma {:induction false} FlatSnoc(sigs: seq<Sig64>, i: nat)
    requires i < |sigs|
    ensures Flat(sigs[..i + 1]) == Flat(sigs[..i]) + sigs[i]
  {
    if i == 0 {
      assert sigs[..1] == [sigs[0]];
    } else {
      FlatSnoc(sigs[1..], i - 1);
      assert sigs[1..][..i] == sigs[..i + 1][1..] && sigs[1..][..i - 1] == sigs[..i][1..];
      assert Flat(sigs[..i + 1]) == sigs[0] + (Flat(sigs[..i][1..]) + sigs[i]);
    }
  }

  lemma {:induction false} StringsSnoc(ss: seq<bytes>, i: nat)
    requires i < |ss| && AllFit(ss)
    ensures Strings(ss[..i + 1]) == Strings(ss[..i]) + VarBytes(ss[i])
  {
    hide BigSizeBytes;
    if i == 0 {
      assert ss[..1] == [ss[0]];
    } else {
      StringsSnoc(ss[1..], i - 1);
      assert ss[1..][..i] == ss[..i + 1][1..] && ss[1..][..i - 1] == ss[..i][1..];
      assert Strings(ss[..i + 1]) == VarBytes(ss[0]) + (Strings(ss[..i][1..]) + VarBytes(ss[i]));
    }
  }

  lemma NothingYet(sigs: seq<Sig64>, ss: seq<bytes>)
    requires AllFit(ss)
    ensures Flat(sigs[..0]) == [] == Strings(ss[..0])
  {
  }

  method WriteTlv(typeId: u64, value: bytes) returns (r: bytes)
    requires Fits(value)
    ensures r == TlvBytes(typeId, value)
  {
    var out := new Encoder();
    out.PutBigSize(typeId);
    out.PutBigSize(|value|);
    out.PutRaw(value);
    r := out.buf;
    assert r == BigSizeBytes(typeId) + (BigSizeBytes(|value|) + value);
  }

  method WriteAttestation(a: ParsedAttestation) returns (r: bytes)
    requires Writable(a)
    ensures r == AttestationBytes(a)
  {
    hide BigSizeBytes, Pow256, ToBE, VarBytes, Body, Flat, Strings;
    var n := |a.signatures|;
    var v := new Encoder();
    v.PutVarBytes(a.eventId);
    v.PutRaw(a.pubkey);
    assert Pow256(2) == 0x1_0000 by { Pow256Values(); }
    v.PutUint(n % 0x1_0000, 2);
    var head := v.buf;
    NothingYet(a.signatures, a.outcomes);
    for i := 0 to n
      invariant v.buf == head + Flat(a.signatures[..i])
    {
      FlatSnoc(a.signatures, i);
      v.PutRaw(a.signatures[i]);
    }
    assert a.signatures[..n] == a.signatures;
    for i := 0 to n
      invariant v.buf == head + Flat(a.signatures) + Strings(a.outcomes[..i])
    {
      StringsSnoc(a.outcomes, i);
      v.PutVarBytes(a.outcomes[i]);
    }
    assert a.outcomes[..n] == a.outcomes;
    BodyIs(a, head);
    r := WriteTlv(TYPE_ORACLE_ATTESTATION, v.buf);
  }

  lemma BodyIs(a: ParsedAttestation, head: bytes)
    requires Writable(a) && head == VarBytes(a.eventId) + a.pubkey + ToBE(|a.signatures| % 0x1_0000, 2)
    ensures Body(a) == head + Flat(a.signatures) + Strings(a.outcomes)
  {
    hide VarBytes, ToBE, Flat, Strings;
    var k, f := a.pubkey, Flat(a.signatures) + Strings(a.outcomes);
    assert VarBytes(a.eventId) + (k + (ToBE(|a.signatures| % 0x1_0000, 2) + f)) == head + f;
  }

  // -------------------------------------------------------------------- parsing

  function Prepend<T>(acc: seq<T>, r: Read<seq<T>>): Read<seq<T>> {
    if r.result.Err? then r else Read(Ok(acc + r.result.value), r.rest)
  }

  function ReadSigs(s: bytes, n: nat): Read<seq<Sig64>> {
    if n == 0 then Read(Ok([]), s) else
    var first := ReadTake(s, 64);
    if first.result.Err? then Read(Err(first.result.error), first.rest) else
    Prepend([first.result.value], ReadSigs(first.rest, n - 1))
  }

  function ReadStrings(utf8: Utf8, s: bytes, n: nat): Read<seq<bytes>> {
    if n == 0 then Read(Ok([]), s) else
    var first := ReadString(utf8, s);
    if first.result.Err? then Read(Err(first.result.error), first.rest) else
    Prepend([first.result.value], ReadStrings(utf8, first.rest, n - 1))
  }

  /** The parallel lists after the key. */
  function ParseLists(utf8: Utf8, id: bytes, key: Word32, s: bytes): Result<ParsedAttestation, ParseError> {
    var count := ReadUint(s, 2);
    if count.result.Err? then Err(Decode(count.result.error)) else
    var sigs := ReadSigs(count.rest, count.result.value);
    if sigs.result.Err? then Err(Decode(sigs.result.error)) else
    var outs := ReadStrings(utf8, sigs.rest, count.result.value);
    if outs.result.Err? then Err(Decode(outs.result.error)) else
    if outs.rest != [] then Err(LengthMismatch) else
    Ok(ParsedAttestation(id, key, sigs.result.value, outs.result.value))
  }

  function ParseBody(utf8: Utf8, s: bytes): Result<ParsedAttestation, ParseError> {
    var id := ReadString(utf8, s);
    if id.result.Err? then Err(Decode(id.result.error)) else
    var key := ReadTake(id.rest, 32);
    if key.result.Err? then Err(Decode(key.result.error)) else
    ParseLists(utf8, id.result.value, key.result.value, key.rest)
  }

  function ParseAttestation(utf8: Utf8, s: bytes): Result<ParsedAttestation, ParseError> {
    var typeId := ReadBigSize(s);
    if typeId.result.Err? then Err(Decode(typeId.result.error)) else
    if typeId.result.value != TYPE_ORACLE_ATTESTATION then Err(WrongType(typeId.result.value)) else
    var value := ReadVarBytes(typeId.rest);
    if value.result.Err? then Err(Decode(value.result.error)) else
    if value.rest != [] then Err(LengthMismatch) else
    ParseBody(utf8, value.result.value)
  }

  lemma PrependNone<T>(r: Read<seq<T>>)
    ensures Prepend([], r) == r
  {
    if r.result.Ok? { assert [] + r.result.value == r.result.value; }
  }

  lemma PrependTwice<T>(a: seq<T>, b: seq<T>, r: Read<seq<T>>)
    ensures Prepend(a, Prepend(b, r)) == Prepend(a + b, r)
  {
    if r.result.Ok? { assert a + (b + r.result.value) == a + b + r.result.value; }
  }

  method TakeSigs(d: Decoder, n: nat) returns (r: Result<seq<Sig64>, DecodeError>)
    requires d.Valid()
    modifies d
    ensures d.Valid() && Read(r, d.Rest()) == ReadSigs(old(d.Rest()), n)
  {
    hide ReadTake, Decoder.Rest;
    var sigs: seq<Sig64> := [];
    PrependNone(ReadSigs(d.Rest(), n));
    for i := 0 to n
      invariant d.Valid()
      invariant Prepend(sigs, ReadSigs(d.Rest(), n - i)) == ReadSigs(old(d.Rest()), n)
    {
      ghost var before := d.Rest();
      var sig := d.Take(64);
      if sig.Err? { return Err(sig.error); }
      assert |sig.value| == 64 by { TakeLength(before, 64); }
      PrependTwice(sigs, [sig.value], ReadSigs(d.Rest(), n - i - 1));
      sigs := sigs + [sig.value];
    }
    assert sigs + [] == sigs;
    r := Ok(sigs);
  }

  lemma TakeLength(s: bytes, n: nat)
    ensures ReadTake(s, n).result.Ok? ==> |ReadTake(s, n).result.value| == n
  {
  }

  method TakeStrings(utf8: Utf8, d: Decoder, n: nat) returns (r: Result<seq<bytes>, DecodeError>)
    requires d.Valid()
    modifies d
    ensures d.Valid() && Read(r, d.Rest()) == ReadStrings(utf8, old(d.Rest()), n)
  {
    hide ReadString, Decoder.Rest;
    var strings := [];
    PrependNone(ReadStrings(utf8, d.Rest(), n));
    for i := 0 to n
      invariant d.Valid()
      invariant Prepend(strings, ReadStrings(utf8, d.Rest(), n - i)) == ReadStrings(utf8, old(d.Rest()), n)
    {
      var s := d.Text(utf8);
      if s.Err? { return Err(s.error); }
      PrependTwice(strings, [s.value], ReadStrings(utf8, d.Rest(), n - i - 1));
      strings := strings + [s.value];
    }
    assert strings + [] == strings;
    r := Ok(strings);
  }

  method Parse(utf8: Utf8, s: bytes) returns (r: Result<ParsedAttestation, ParseError>)
    ensures r == ParseAttestation(utf8, s)
  {
    hide ReadBigSize, ReadVarBytes, ReadString, ReadUint, ReadSigs, ReadStrings, ReadTake;
    var d := new Decoder(s);
    assert d.Rest() == s;
    var typeId := d.BigSize();
    if typeId.Err? { return Err(Decode(typeId.error)); }
    if typeId.value != TYPE_ORACLE_ATTESTATION { return Err(WrongType(typeId.value)); }
    var value := d.VarBytes();
    if value.Err? { return Err(Decode(value.error)); }
    if !d.Done() { return Err(LengthMismatch); }
    var v := new Decoder(value.value);
    assert v.Rest() == value.value;
    var id := v.Text(utf8);
    if id.Err? { return Err(Decode(id.error)); }
    ghost var afterId := v.Rest();
    var key := v.Take(32);
    if key.Err? { return Err(Decode(key.error)); }
    assert |key.value| == 32 by { TakeLength(afterId, 32); }
    var count := v.Uint(2);
    if count.Err? { return Err(Decode(count.error)); }
    var sigs := TakeSigs(v, count.value);
    if sigs.Err? { return Err(Decode(sigs.error)); }
    var outs := TakeStrings(utf8, v, count.value);
    if outs.Err? { return Err(Decode(outs.error)); }
    if !v.Done() { return Err(LengthMismatch); }
    r := Ok(ParsedAttestation(id.value, key.value, sigs.value, outs.value));
  }

  // ------------------------------------------------------------------ both ways

  lemma {:induction false} SigsRoundTrip(sigs: seq<Sig64>, after: bytes)
    ensures ReadSigs(Flat(sigs) + after, |sigs|) == Read(Ok(sigs), after)
  {
    if |sigs| == 0 {
      assert Flat(sigs) + after == after;
    } else {
      SigsRoundTrip(sigs[1..], after);
      var s := Flat(sigs) + after;
      assert s[..64] == sigs[0] && s[64..] == Flat(sigs[1..]) + after;
      assert [sigs[0]] + sigs[1..] == sigs;
    }
  }

  lemma {:induction false} SigsCanonical(s: bytes, n: nat)
    requires ReadSigs(s, n).result.Ok?
    ensures var r := ReadSigs(s, n); |r.result.value| == n && s == Flat(r.result.value) + r.rest
  {
    if n == 0 {
      assert s == [] + s;
    } else {
      SigsCanonical(s[64..], n - 1);
      var tail := ReadSigs(s[64..], n - 1);
      var all := ReadSigs(s, n).result.value;
      assert all[1..] == tail.result.value;
      assert s == s[..64] + s[64..];
    }
  }

  predicate AllUtf8(utf8: Utf8, ss: seq<bytes>) {
    forall i :: 0 <= i < |ss| ==> utf8(ss[i])
  }

  lemma {:induction false} StringsRoundTrip(utf8: Utf8, ss: seq<bytes>, after: bytes)
    requires AllFit(ss) && AllUtf8(utf8, ss)
    ensures ReadStrings(utf8, Strings(ss) + after, |ss|) == Read(Ok(ss), after)
  {
    hide VarBytes, ReadString;
    if |ss| == 0 {
      assert Strings(ss) + after == after;
    } else {
      StringsRoundTrip(utf8, ss[1..], after);
      StringRoundTrip(utf8, ss[0], Strings(ss[1..]) + after);
      assert Strings(ss) + after == VarBytes(ss[0]) + (Strings(ss[1..]) + after);
      assert [ss[0]] + ss[1..] == ss;
    }
  }

  lemma {:induction false} StringsCanonical(utf8: Utf8, s: bytes, n: nat)
    requires ReadStrings(utf8, s, n).result.Ok?
    ensures var r := ReadStrings(utf8, s, n);
      && |r.result.value| == n && AllFit(r.result.value)
      && AllUtf8(utf8, r.result.value)
      && s == Strings(r.result.value) + r.rest
    decreases n
  {
    hide VarBytes, ReadString;
    if n == 0 {
      assert s == [] + s;
    } else {
      StringCanonical(utf8, s);
      var first := ReadString(utf8, s);
      StringsCanonical(utf8, first.rest, n - 1);
      var tail := ReadStrings(utf8, first.rest, n - 1);
      var all := ReadStrings(utf8, s, n).result.value;
      assert all[1..] == tail.result.value;
      assert VarBytes(all[0]) + (Strings(all[1..]) + tail.rest) == Strings(all) + tail.rest;
    }
  }

  /** The text fields are UTF-8, as every string of the source is. */
  predicate AllText(utf8: Utf8, a: ParsedAttestation) {
    utf8(a.eventId) && AllUtf8(utf8, a.outcomes)
  }

  lemma ListsParse(utf8: Utf8, a: ParsedAttestation, s: bytes, n: nat, r1: bytes, r2: bytes)
    requires ReadUint(s, 2) == Read(Ok(n), r1)
    requires ReadSigs(r1, n) == Read(Ok(a.signatures), r2)
    requires ReadStrings(utf8, r2, n) == Read(Ok(a.outcomes), [])
    ensures ParseLists(utf8, a.eventId, a.pubkey, s) == Ok(a)
  {
    hide ReadUint, ReadSigs, ReadStrings;
  }

  lemma ListsRoundTrip(utf8: Utf8, a: ParsedAttestation)
    requires |a.signatures| == |a.outcomes| < 0x1_0000 && AllFit(a.outcomes) && AllUtf8(utf8, a.outcomes)
    ensures ParseLists(utf8, a.eventId, a.pubkey, Lists(a.signatures, a.outcomes)) == Ok(a)
  {
    assert Pow256(2) == 0x1_0000 by { Pow256Values(); }
    var n := |a.signatures|;
    assert Lists(a.signatures, a.outcomes) == ToBE(n, 2) + (Flat(a.signatures) + Strings(a.outcomes)) by {
      SmallCount(n);
    }
    hide *;
    UintRoundTrip(n, 2, Flat(a.signatures) + Strings(a.outcomes));
    SigsRoundTrip(a.signatures, Strings(a.outcomes));
    StringsRoundTrip(utf8, a.outcomes, []);
    assert Strings(a.outcomes) + [] == Strings(a.outcomes);
    ListsParse(utf8, a, Lists(a.signatures, a.outcomes), n, Flat(a.signatures) + Strings(a.outcomes),
               Strings(a.outcomes));
  }

  lemma SmallCount(n: nat)
    requires n < 0x1_0000
    ensures n % 0x1_0000 == n
  {
  }

  lemma BodyRoundTrip(utf8: Utf8, a: ParsedAttestation)
    requires Writable(a) && AllText(utf8, a) && |a.signatures| < 0x1_0000
    ensures ParseBody(utf8, Body(a)) == Ok(a)
  {
    ListsRoundTrip(utf8, a);
    hide VarBytes, ReadString, ReadTake, ParseLists, Lists;
    StringRoundTrip(utf8, a.eventId, a.pubkey + Lists(a.signatures, a.outcomes));
    KeyRoundTrip(a.pubkey, Lists(a.signatures, a.outcomes));
  }

  lemma KeyRoundTrip(key: Word32, after: bytes)
    ensures ReadTake(key + after, 32) == Read(Ok(key), after)
  {
    assert (key + after)[..32] == key && (key + after)[32..] == after;
  }

  /** Parsing undoes writing exactly for attestations whose count fits sixteen bits. */
  lemma AttestationRoundTrip(utf8: Utf8, a: ParsedAttestation)
    requires Writable(a) && AllText(utf8, a)
    ensures ParseAttestation(utf8, AttestationBytes(a)) == Ok(a) <==> |a.signatures| < 0x1_0000
  {
    hide VarBytes, BigSizeBytes, ReadBigSize, ReadVarBytes, ParseBody, Body;
    var body := Body(a);
    BigSizeRoundTrip(TYPE_ORACLE_ATTESTATION, VarBytes(body));
    VarBytesRoundTrip(body, []);
    assert VarBytes(body) + [] == VarBytes(body);
    if |a.signatures| < 0x1_0000 {
      BodyRoundTrip(utf8, a);
    } else if ParseBody(utf8, body) == Ok(a) {
      BodyCount(utf8, body);
    }
  }

  lemma BodyCount(utf8: Utf8, s: bytes)
    requires ParseBody(utf8, s).Ok?
    ensures |ParseBody(utf8, s).value.signatures| < 0x1_0000
  {
    var id := ReadString(utf8, s);
    var key := ReadTake(id.rest, 32);
    hide ReadString, ParseLists;
    ListsCanonical(utf8, id.result.value, key.result.value, key.rest);
  }

  lemma ListsParts(utf8: Utf8, id: bytes, key: Word32, s: bytes)
      returns (count: Read<nat>, sigs: Read<seq<Sig64>>, outs: Read<seq<bytes>>)
    requires ParseLists(utf8, id, key, s).Ok?
    ensures count == ReadUint(s, 2) && count.result.Ok?
    ensures sigs == ReadSigs(count.rest, count.result.value) && sigs.result.Ok?
    ensures outs == ReadStrings(utf8, sigs.rest, count.result.value) && outs.result.Ok? && outs.rest == []
    ensures ParseLists(utf8, id, key, s).value == ParsedAttestation(id, key, sigs.result.value, outs.result.value)
  {
    hide ReadUint, ReadSigs, ReadStrings;
    count := ReadUint(s, 2);
    sigs := ReadSigs(count.rest, count.result.value);
    outs := ReadStrings(utf8, sigs.rest, count.result.value);
  }

  lemma ListsCanonical(utf8: Utf8, id: bytes, key: Word32, s: bytes)
    requires ParseLists(utf8, id, key, s).Ok?
    ensures var a := ParseLists(utf8, id, key, s).value;
      && a.eventId == id && a.pubkey == key
      && |a.signatures| == |a.outcomes| < 0x1_0000 && AllFit(a.outcomes)
      && AllUtf8(utf8, a.outcomes)
      && s == Lists(a.signatures, a.outcomes)
  {
    assert Pow256(2) == 0x1_0000 by { Pow256Values(); }
    hide *;
    var a := ParseLists(utf8, id, key, s).value;
    var count, sigs, outs := ListsParts(utf8, id, key, s);
    UintCanonical(s, 2);
    SigsCanonical(count.rest, count.result.value);
    StringsCanonical(utf8, sigs.rest, count.result.value);
    assert Strings(a.outcomes) + [] == Strings(a.outcomes);
    ListsJoin(a.signatures, a.outcomes, s, count.result.value);
  }

  lemma ListsJoin(sigs: seq<Sig64>, outs: seq<bytes>, s: bytes, n: nat)
    requires AllFit(outs) && n == |sigs| < 0x1_0000
    requires s == ToBE(n, 2) + (Flat(sigs) + Strings(outs))
    ensures s == Lists(sigs, outs)
  {
    hide ToBE, Flat, Strings, AllFit;
    SmallCount(n);
  }

  lemma BodyCanonical(utf8: Utf8, s: bytes)
    requires ParseBody(utf8, s).Ok? && Fits(s)
    ensures var a := ParseBody(utf8, s).value;
      Writable(a) && AllText(utf8, a) && |a.signatures| < 0x1_0000 && Body(a) == s
  {
    var id := ReadString(utf8, s);
    var key := ReadTake(id.rest, 32);
    assert id.rest == id.rest[..32] + id.rest[32..];
    assert key.rest == id.rest[32..] && key.result.value == id.rest[..32];
    hide VarBytes, ReadString, ReadTake, ParseLists, Lists;
    StringCanonical(utf8, s);
    ListsCanonical(utf8, id.result.value, key.result.value, key.rest);
  }

  /** Every accepted byte string is the encoding of what was parsed from it. */
  lemma AttestationCanonical(utf8: Utf8, s: bytes)
    requires ParseAttestation(utf8, s).Ok?
    ensures var a := ParseAttestation(utf8, s).value;
      Writable(a) && AllText(utf8, a) && |a.signatures| < 0x1_0000 && AttestationBytes(a) == s
  {
    hide VarBytes, BigSizeBytes, ReadBigSize, ReadVarBytes, ParseBody, Body, Writable;
    BigSizeCanonical(s);
    var typeId := ReadBigSize(s);
    VarBytesCanonical(typeId.rest);
    var value := ReadVarBytes(typeId.rest);
    BodyCanonical(utf8, value.result.value);
    assert VarBytes(value.result.value) + [] == VarBytes(value.result.value);
  }
}
