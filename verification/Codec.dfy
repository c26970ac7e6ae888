/** The canonical encoder and its strict decoder: big-endian integers, minimal BigSize
    lengths, and length-prefixed strings.

    What a read does is a function on the bytes that remain; it says both the outcome and
    what is left afterwards, also when it fails half-way. */
module Codec {
  import opened Options
  import opened Bytes
  import opened Modular

  datatype DecodeError = Truncated | NonCanonicalBigSize | Oversized | BadUtf8

  /** What a read returns, and the bytes it leaves. */
  datatype Read<+T> = Read(result: Result<T, DecodeError>, rest: bytes)

  /** Which byte strings are UTF-8. */
  type Utf8 = bytes -> bool

  lemma Pow256Values()
    ensures Pow256(1) == 0x100 && Pow256(2) == 0x1_0000 && Pow256(4) == 0x1_0000_0000
    ensures Pow256(8) == 0x1_0000_0000_0000_0000
  {
    assert Pow256(8) == 256 * (256 * (256 * (256 * Pow256(4))));
  }

  // -------------------------------------------------------------------- encoding

  function BigSizeBytes(v: u64): bytes {
    if v <= 0xfc then [v]
    else if v <= 0xffff then [0xfd] + ToBE(v, 2)
    else if v <= 0xffff_ffff then [0xfe] + ToBE(v, 4)
    else [0xff] + ToBE(v, 8)
  }

  predicate Fits(s: bytes) {
    |s| < 0x1_0000_0000_0000_0000
  }

  function VarBytes(s: bytes): bytes
    requires Fits(s)
  {
    BigSizeBytes(|s|) + s
  }

  class Encoder {
    var buf: bytes

    constructor ()
      ensures buf == []
    {
      buf := [];
    }

    method PutU8(v: Byte)
      modifies this
      ensures buf == old(buf) + [v]
    {
      buf := buf + [v];
    }

    /** `put_u16`, `put_u32` and `put_u64`, by width. */
    method PutUint(v: nat, width: nat)
      requires v < Pow256(width)
      modifies this
      ensures buf == old(buf) + ToBE(v, width)
    {
      buf := buf + ToBE(v, width);
    }

    method PutRaw(s: bytes)
      modifies this
      ensures buf == old(buf) + s
    {
      buf := buf + s;
    }

    method PutBigSize(v: u64)
      modifies this
      ensures buf == old(buf) + BigSizeBytes(v)
    {
      if v <= 0xfc {
        buf := buf + [v];
      } else if v <= 0xffff {
        buf := buf + [0xfd];
        buf := buf + ToBE(v, 2);
      } else if v <= 0xffff_ffff {
        buf := buf + [0xfe];
        buf := buf + ToBE(v, 4);
      } else {
        buf := buf + [0xff];
        buf := buf + ToBE(v, 8);
      }
    }

    method PutVarBytes(s: bytes)
      requires Fits(s)
      modifies this
      ensures buf == old(buf) + VarBytes(s)
    {
      PutBigSize(|s|);
      buf := buf + s;
    }
  }

  // -------------------------------------------------------------------- decoding

  function ReadTake(s: bytes, n: nat): Read<bytes> {
    if |s| < n then Read(Err(Truncated), s) else Read(Ok(s[..n]), s[n..])
  }

  function ReadUint(s: bytes, width: nat): Read<nat> {
    var r := ReadTake(s, width);
    if r.result.Err? then Read(Err(r.result.error), r.rest) else Read(Ok(BE(r.result.value)), r.rest)
  }

  /** The bytes of payload that a BigSize's first byte announces. */
  function PayloadWidth(first: Byte): nat {
    if first <= 0xfc then 0 else if first == 0xfd then 2 else if first == 0xfe then 4 else 8
  }

  predicate Minimal(first: Byte, v: nat) {
    first <= 0xfc || (first == 0xfd && v >= 0xfd) || (first == 0xfe && v > 0xffff) || (first == 0xff && v > 0xffff_ffff)
  }

  function ReadBigSize(s: bytes): Read<nat> {
    if |s| == 0 then Read(Err(Truncated), s) else
    var payload := ReadUint(s[1..], PayloadWidth(s[0]));
    if payload.result.Err? then payload else
    var v := if s[0] <= 0xfc then s[0] else payload.result.value;
    if !Minimal(s[0], v) then Read(Err(NonCanonicalBigSize), payload.rest) else
    Read(Ok(v), payload.rest)
  }

  function ReadVarBytes(s: bytes): Read<bytes> {
    var len := ReadBigSize(s);
    if len.result.Err? then Read(Err(len.result.error), len.rest) else ReadTake(len.rest, len.result.value)
  }

  function ReadString(utf8: Utf8, s: bytes): Read<bytes> {
    var r := ReadVarBytes(s);
    if r.result.Ok? && !utf8(r.result.value) then Read(Err(BadUtf8), r.rest) else r
  }

  class Decoder {
    const data: bytes
    var pos: nat

    constructor (data: bytes)
      ensures this.data == data && pos == 0 && Valid()
    {
      this.data := data;
      pos := 0;
    }

    ghost predicate Valid()
      reads this
    {
      pos <= |data|
    }

    function Rest(): bytes
      reads this
      requires Valid()
    {
      data[pos..]
    }

    predicate Done()
      reads this
      requires Valid()
      ensures Done() <==> Rest() == []
    {
      pos == |data|
    }

    method Take(n: nat) returns (r: Result<bytes, DecodeError>)
      requires Valid()
      modifies this
      ensures Valid() && Read(r, Rest()) == ReadTake(old(Rest()), n)
    {
      if |data| - pos < n { return Err(Truncated); }
      r := Ok(data[pos..pos + n]);
      assert data[pos..][..n] == data[pos..pos + n] && data[pos..][n..] == data[pos + n..];
      pos := pos + n;
    }

    method Uint(width: nat) returns (r: Result<nat, DecodeError>)
      requires Valid()
      modifies this
      ensures Valid() && Read(r, Rest()) == ReadUint(old(Rest()), width)
    {
      var t := Take(width);
      r := if t.Err? then Err(t.error) else Ok(BE(t.value));
    }

    method BigSize() returns (r: Result<nat, DecodeError>)
      requires Valid()
      modifies this
      ensures Valid() && Read(r, Rest()) == ReadBigSize(old(Rest()))
    {
      var first := Take(1);
      if first.Err? { return Err(first.error); }
      var b := first.value[0];
      var v: nat := b;
      if b == 0xfd {
        r := Uint(2);
        if r.Err? { return; }
        v := r.value;
      } else if b == 0xfe {
        r := Uint(4);
        if r.Err? { return; }
        v := r.value;
      } else if b == 0xff {
        r := Uint(8);
        if r.Err? { return; }
        v := r.value;
      }
      r := if Minimal(b, v) then Ok(v) else Err(NonCanonicalBigSize);
    }

    /** On a 64-bit machine every BigSize is a possible length. */
    method VarBytes() returns (r: Result<bytes, DecodeError>)
      requires Valid()
      modifies this
      ensures Valid() && Read(r, Rest()) == ReadVarBytes(old(Rest()))
    {
      var len := BigSize();
      if len.Err? { return Err(len.error); }
      r := Take(len.value);
    }

    method Text(utf8: Utf8) returns (r: Result<bytes, DecodeError>)
      requires Valid()
      modifies this
      ensures Valid() && Read(r, Rest()) == ReadString(utf8, old(Rest()))
    {
      r := VarBytes();
      if r.Ok? && !utf8(r.value) { r := Err(BadUtf8); }
    }
  }

  // ------------------------------------------------------------------ both ways

  /** Reading what was written gives it back and leaves what follows. */
  lemma UintRoundTrip(v: nat, width: nat, after: bytes)
    requires v < Pow256(width)
    ensures ReadUint(ToBE(v, width) + after, width) == Read(Ok(v), after)
  {
    BEOfToBE(v, width);
    assert (ToBE(v, width) + after)[..width] == ToBE(v, width);
    assert (ToBE(v, width) + after)[width..] == after;
  }

  /** Whatever a fixed-width read accepts is the encoding of the value. */
  lemma UintCanonical(s: bytes, width: nat)
    requires ReadUint(s, width).result.Ok?
    ensures var r := ReadUint(s, width);
      r.result.value < Pow256(width) && s == ToBE(r.result.value, width) + r.rest
  {
    BEBound(s[..width]);
    ToBEOfBE(s[..width]);
    assert s == s[..width] + s[width..];
  }

  lemma BigSizeRoundTrip(v: u64, after: bytes)
    ensures ReadBigSize(BigSizeBytes(v) + after) == Read(Ok(v), after)
  {
    hide Pow256, ToBE, BE, ReadUint;
    Pow256Values();
    var w := PayloadWidth(BigSizeBytes(v)[0]);
    if v <= 0xfc {
      assert ([v] + after)[1..] == after;
      ReadNothing(after);
    } else {
      UintRoundTrip(v, w, after);
      assert (BigSizeBytes(v) + after)[1..] == ToBE(v, w) + after;
    }
  }

  lemma ReadNothing(s: bytes)
    ensures ReadUint(s, 0) == Read(Ok(0), s)
  {
    assert s[..0] == [] && s[0..] == s;
  }

  /** BigSize is minimal: every accepted length has exactly one encoding. */
  lemma BigSizeCanonical(s: bytes)
    requires ReadBigSize(s).result.Ok?
    ensures var r := ReadBigSize(s);
      r.result.value < 0x1_0000_0000_0000_0000 && s == BigSizeBytes(r.result.value) + r.rest
  {
    Pow256Values();
    var w := PayloadWidth(s[0]);
    UintCanonical(s[1..], w);
    hide Pow256, ToBE, BE, ReadUint;
    if s[0] <= 0xfc {
      ReadNothing(s[1..]);
    }
    assert s == [s[0]] + s[1..];
  }

  lemma VarBytesRoundTrip(v: bytes, after: bytes)
    requires Fits(v)
    ensures ReadVarBytes(VarBytes(v) + after) == Read(Ok(v), after)
  {
    hide BigSizeBytes, ReadBigSize;
    BigSizeRoundTrip(|v|, v + after);
    assert VarBytes(v) + after == BigSizeBytes(|v|) + (v + after);
    assert (v + after)[..|v|] == v && (v + after)[|v|..] == after;
  }

  lemma VarBytesCanonical(s: bytes)
    requires ReadVarBytes(s).result.Ok?
    ensures var r := ReadVarBytes(s);
      Fits(r.result.value) && s == VarBytes(r.result.value) + r.rest
  {
    hide BigSizeBytes, ReadBigSize;
    BigSizeCanonical(s);
    var len := ReadBigSize(s);
    assert len.rest == len.rest[..len.result.value] + len.rest[len.result.value..];
  }

  lemma StringRoundTrip(utf8: Utf8, v: bytes, after: bytes)
    requires Fits(v) && utf8(v)
    ensures ReadString(utf8, VarBytes(v) + after) == Read(Ok(v), after)
  {
    VarBytesRoundTrip(v, after);
  }

  lemma StringCanonical(utf8: Utf8, s: bytes)
    requires ReadString(utf8, s).result.Ok?
    ensures var r := ReadString(utf8, s);
      utf8(r.result.value) && Fits(r.result.value) && s == VarBytes(r.result.value) + r.rest
  {
    VarBytesCanonical(s);
  }
}
