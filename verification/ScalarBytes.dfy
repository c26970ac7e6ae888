/** The two loops of the signing module that work on raw 32-byte scalars: reduction
    modulo the group order, and inversion by square-and-multiply. */
module ScalarBytes {
  import opened Options
  import opened Modular
  import opened Bytes
  import opened Secp

  /** The group order as 32 big-endian bytes. */
  function Order(): bytes {
    ToBE(N, 32)
  }

  lemma ToBELast(v: nat, n: nat)
    requires n > 0
    ensures ToBE(v, n)[n - 1] == v % 256
  {
  }

  lemma OrderValue()
    ensures |Order()| == 32 && BE(Order()) == N
    ensures Order()[31] == 0x41
  {
    hide ToBE, BE, Pow256;
    Pow256Of32();
    BEOfToBE(N, 32);
    ToBELast(N, 32);
  }

  /** The value of a suffix grows by its new leading byte. */
  lemma BESuffix(bs: bytes, i: nat)
    requires i < |bs|
    ensures BE(bs[i..]) == bs[i] * Pow256(|bs| - i - 1) + BE(bs[i + 1..])
  {
    assert bs[i..] == [bs[i]] + bs[i + 1..];
    BEConcat([bs[i]], bs[i + 1..]);
    assert BE([bs[i]]) == bs[i];
  }

  /** The suffix from `i` of `x - n`, taken byte by byte, is that of `out` less the borrow. */
  ghost predicate Subtracted(x: bytes, n: bytes, out: bytes, i: nat, borrow: int)
    requires |x| == |n| == |out| && i <= |x|
  {
    BE(x[i..]) - BE(n[i..]) == BE(out[i..]) - borrow * Pow256(|x| - i)
  }

  /** One column of the schoolbook subtraction. */
  lemma SubtractColumn(x: bytes, n: bytes, out: bytes, out': bytes, i: nat, borrow: int, borrow': int)
    requires |x| == |n| == |out| == |out'| && i < |x|
    requires Subtracted(x, n, out, i + 1, borrow)
    requires out'[i + 1..] == out[i + 1..]
    requires out'[i] == x[i] as int - n[i] as int - borrow + borrow' * 256
    ensures Subtracted(x, n, out', i, borrow')
  {
    BESuffix(x, i);
    BESuffix(n, i);
    BESuffix(out', i);
    var w := Pow256(|x| - i - 1);
    assert Pow256(|x| - i) == 256 * w;
    Column(w, x[i], n[i], out'[i], borrow, borrow');
  }

  lemma Column(w: int, x: int, n: int, d: int, borrow: int, borrow': int)
    requires d == x - n - borrow + borrow' * 256
    ensures x * w - n * w - borrow * w == d * w - borrow' * (256 * w)
  {
  }

  /** Interpret 32 bytes as a scalar: at most one subtraction of the order is needed,
      done byte by byte from the low end with a borrow. */
  method ScalarModN(bytes32: bytes) returns (r: bytes)
    requires |bytes32| == 32
    ensures |r| == 32
    ensures BE(r) == BE(bytes32) % N
  {
    hide Order, BE, Subtracted, ToBE, Pow256;
    OrderValue();
    if BE(bytes32) < N {
      AlreadyReduced(BE(bytes32));
      return bytes32;
    }
    var order := Order();
    var out := new Byte[32];
    var borrow := 0;
    var i: nat := 32;
    assert Subtracted(bytes32, order, out[..], 32, 0) by { NothingSubtracted(bytes32, order, out[..]); }
    while i > 0
      invariant i <= 32 && 0 <= borrow <= 1
      invariant Subtracted(bytes32, order, out[..], i, borrow)
    {
      ghost var before, b := out[..], borrow;
      i := i - 1;
      var d: int := bytes32[i] as int - order[i] as int - borrow;
      if d < 0 {
        out[i] := d + 256;
        borrow := 1;
      } else {
        out[i] := d;
        borrow := 0;
      }
      assert out[..][i + 1..] == before[i + 1..];
      SubtractColumn(bytes32, order, before, out[..], i, b, borrow);
    }
    r := out[..];
    AllSubtracted(bytes32, order, r, borrow);
  }

  lemma NothingSubtracted(x: bytes, n: bytes, out: bytes)
    requires |x| == |n| == |out|
    ensures Subtracted(x, n, out, |x|, 0)
  {
  }

  lemma AllSubtracted(x: bytes, n: bytes, out: bytes, borrow: int)
    requires |x| == |n| == |out| == 32
    requires Subtracted(x, n, out, 0, borrow) && 0 <= borrow <= 1
    requires BE(n) == N && BE(x) >= N
    ensures BE(out) == BE(x) % N
  {
    assert x[0..] == x && n[0..] == n && out[0..] == out;
    WordBound(out);
    WordBound(x);
    Pow256Of32();
    hide BE, Pow256;
    ReducedOnce(BE(x), BE(out), borrow);
  }

  lemma ReducedOnce(x: nat, out: nat, borrow: int)
    requires 0 <= borrow <= 1 && x - N == out - borrow * TWO256
    requires N <= x < TWO256 && out < TWO256
    ensures out == x % N
  {
    assert borrow == 0;
    DivUnique(x, N, 1, out);
  }

  lemma AlreadyReduced(x: nat)
    requires x < N
    ensures x == x % N
  {
    DivUnique(x, N, 0, x);
  }

  // ------------------------------------------------------------------ inversion

  /** Peel one bit off an exponent. */
  lemma SquareStep(base: int, half: nat, bit: nat)
    ensures Pow(base, 2 * half + bit) == Pow(base, bit) * Pow(base * base, half)
  {
    PowAdd(base, bit, 2 * half);
    PowSquare(base, half);
  }

  /** Invariant of square-and-multiply: what is accumulated times what is left. */
  ghost predicate Pending(a: int, e: nat, acc: int, base: int, rem: nat) {
    Cong(N, acc * Pow(base, rem), Pow(a, e))
  }

  lemma LowFactor(acc: int, base: int, bit: nat)
    requires bit <= 1
    ensures acc * Pow(base, bit) == if bit == 1 then acc * base else acc
  {
    PowStep(base, 0);
    assert Pow(base, bit) == if bit == 1 then base else 1;
  }

  lemma Regroup(a: int, b: int, c: int)
    ensures a * b * c == a * (b * c)
  {
  }

  lemma PendingStep(a: int, e: nat, acc: int, base: int, half: nat, bit: nat, acc': int, base': int)
    requires bit <= 1
    requires Pending(a, e, acc, base, 2 * half + bit)
    requires Cong(N, acc', if bit == 1 then acc * base else acc)
    requires Cong(N, base', base * base)
    ensures Pending(a, e, acc', base', half)
  {
    var low, high := Pow(base, bit), Pow(base * base, half);
    LowFactor(acc, base, bit);
    hide Pow, Cong;
    SquareStep(base, half, bit);
    CongPow(N, base', base * base, half);
    CongMul(N, acc', acc * low, Pow(base', half), high);
    Regroup(acc, low, high);
    CongTrans(N, acc' * Pow(base', half), acc * (low * high), Pow(a, e));
  }

  lemma PendingStart(a: int, e: nat)
    ensures Pending(a, e, 1, a, e)
  {
    CongRefl(N, Pow(a, e));
    assert 1 * Pow(a, e) == Pow(a, e);
  }

  lemma PendingDone(a: int, e: nat, acc: int, base: int)
    requires Pending(a, e, acc, base, 0)
    ensures Cong(N, acc, Pow(a, e))
  {
    assert acc * Pow(base, 0) == acc;
  }

  function Acc(r: Option<SecretKey>): int {
    if r.None? then 1 else r.value
  }

  /** The exponent bits not yet used: the shifted byte in hand above the bytes to its left. */
  ghost function Remaining(high: nat, bits: nat, j: nat): nat {
    Pow2(j) * high + bits
  }

  lemma ShiftRight(high: nat, bits: nat, j: nat)
    requires j > 0 && bits < Pow2(j)
    ensures Remaining(high, bits, j) == 2 * Remaining(high, bits / 2, j - 1) + bits % 2
    ensures bits / 2 < Pow2(j - 1)
  {
    assert (2 * Pow2(j - 1)) * high == 2 * (Pow2(j - 1) * high);
  }

  lemma TakeByte(exp: bytes, i: nat)
    requires i < |exp|
    ensures BE(exp[..i + 1]) == Remaining(BE(exp[..i]), exp[i], 8)
    ensures exp[i] < Pow2(8)
  {
    assert exp[..i + 1][..i] == exp[..i];
    assert Pow2(8) == 256;
  }

  lemma ByteDone(high: nat, bits: nat)
    requires bits < Pow2(0)
    ensures Remaining(high, bits, 0) == high
  {
  }

  lemma InverseFound(a: SecretKey, e: nat, r: SecretKey)
    requires IsPrime(N) && e == N - 2
    requires Cong(N, r, Pow(a, e))
    ensures r == InverseOf(N, a)
  {
    hide *;
    FermatInverse(N, a, e);
    CongRefl(N, a);
    CongMul(N, a, a, r, Pow(a, e));
    CongTrans(N, a * r, a * Pow(a, e), 1);
    InverseUnique(N, a, r);
  }

  lemma ExponentValue(exp: bytes)
    requires exp == Order()[31 := 0x3f]
    ensures BE(exp) == N - 2
    ensures exp[..32] == exp && BE(exp[..0]) == 0
  {
    OrderValue();
    assert exp[..31] == Order()[..31];
  }

  /** A product that a prime order cannot make vanish. */
  lemma ProductVanished(a: SecretKey, b: SecretKey)
    requires MulTweak(a, b).None?
    ensures !IsPrime(N)
  {
    if IsPrime(N) { MulTweakFails(a, b); }
  }

  /** The inverse modulo the order, as a^(N-2) by square-and-multiply over the bits of
      the exponent from the low end. */
  method InvertModN(a: SecretKey) returns (result: Option<SecretKey>)
    ensures result.Some? ==> Cong(N, result.value, Pow(a, BE(Order()[31 := 0x3f])))
    ensures IsPrime(N) ==> result == Some(InverseOf(N, a))
  {
    hide Order, ToBE, Cong, Pow, Pending, Reduce, MulTweak, BE, Remaining, Pow2, IsPrime, InverseOf;
    OrderValue();
    var exp := Order()[31 := Order()[31] - 2];
    ghost var e := BE(exp);
    ExponentValue(exp);

    result := None;
    var base: SecretKey := a;
    var i: nat := 32;
    PendingStart(a, e);
    while i > 0
      invariant i <= 32
      invariant result.None? ==> BE(exp[..i]) > 0
      invariant Pending(a, e, Acc(result), base, BE(exp[..i]))
    {
      i := i - 1;
      var bits: nat := exp[i];
      ghost var high := BE(exp[..i]);
      TakeByte(exp, i);
      for j := 0 to 8
        invariant bits < Pow2(8 - j)
        invariant result.None? ==> Remaining(high, bits, 8 - j) > 0
        invariant Pending(a, e, Acc(result), base, Remaining(high, bits, 8 - j))
      {
        ShiftRight(high, bits, 8 - j);
        ghost var acc, half, low := Acc(result), Remaining(high, bits / 2, 7 - j), bits % 2;
        if bits % 2 == 1 {
          if result.None? {
            result := Some(base);
          } else {
            var r := MulTweak(result.value, base);
            if r.None? {
              ProductVanished(result.value, base);
              return None;
            }
            MulTweakCong(result.value, base);
            result := r;
          }
        }
        bits := bits / 2;
        var square := MulTweak(base, base);
        if square.None? {
          ProductVanished(base, base);
          return None;
        }
        MulTweakCong(base, base);
        CongRefl(N, Acc(result));
        assert low == 1 && acc == 1 ==> acc * base == base;
        PendingStep(a, e, acc, base, half, low, Acc(result), square.value);
        base := square.value;
      }
      ByteDone(high, bits);
    }
    PendingDone(a, e, result.value, base);
    if IsPrime(N) {
      InverseFound(a, e, result.value);
    }
  }
}
