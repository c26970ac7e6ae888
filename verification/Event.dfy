/** Digit decomposition of a price: base 2, twenty digits, most significant first. */
module Event {
  import opened Modular

  type DigitCount = n: nat | n == 20 witness 20

  /** Twenty; a typed constant rather than a literal, which the solver would unroll. */
  const NB_DIGITS: DigitCount
  const MAX_OUTCOME: nat := 0xFFFFF

  type Digit = d: nat | d < 2

  lemma Pow2Of20()
    ensures Pow2(20) == MAX_OUTCOME + 1
  {
    assert Pow2(10) == 1024;
    hide Pow2;
    Pow2Add(10, 10);
  }

  function Clamp(price: nat): nat {
    if price > MAX_OUTCOME then MAX_OUTCOME else price
  }

  /** The number a digit string spells, most significant digit first. */
  function PriceFromDigits(ds: seq<Digit>): nat {
    if |ds| == 0 then 0 else 2 * PriceFromDigits(ds[..|ds| - 1]) + ds[|ds| - 1]
  }

  /** The `n` digits of a number, most significant first. */
  function DigitsOf(v: nat, n: nat): (ds: seq<Digit>)
    ensures |ds| == n
  {
    if n == 0 then [] else DigitsOf(v / 2, n - 1) + [v % 2]
  }

  function Digits(price: nat): (ds: seq<Digit>)
    ensures |ds| == NB_DIGITS
  {
    DigitsOf(Clamp(price), NB_DIGITS)
  }

  lemma {:induction false} DigitAt(v: nat, n: nat, i: nat)
    requires i < n
    ensures DigitsOf(v, n)[i] == (v / Pow2(n - 1 - i)) % 2
  {
    if i < n - 1 {
      DigitAt(v / 2, n - 1, i);
      DivTwice(v, Pow2(n - 2 - i));
    }
  }

  /** The digits are filled in place from the top bit down. */
  method FillDigits(price: nat) returns (out: array<Digit>)
    ensures fresh(out) && out[..] == Digits(price)
  {
    var clamped := Clamp(price);
    out := new Digit[NB_DIGITS];
    for i := 0 to NB_DIGITS
      invariant forall k :: 0 <= k < i ==> out[k] == Digits(price)[k]
    {
      DigitAt(clamped, NB_DIGITS, i);
      out[i] := (clamped / Pow2(NB_DIGITS - 1 - i)) % 2;
    }
  }

  lemma {:induction false} DigitsRoundTrip(v: nat, n: nat)
    requires v < Pow2(n)
    ensures PriceFromDigits(DigitsOf(v, n)) == v
  {
    if n > 0 {
      DigitsRoundTrip(v / 2, n - 1);
      assert DigitsOf(v, n)[..n - 1] == DigitsOf(v / 2, n - 1);
    }
  }

  /** Recomposing the digits gives the price, clamped at the largest outcome. */
  lemma PriceRoundTrip(price: nat)
    ensures PriceFromDigits(Digits(price)) == Clamp(price)
  {
    Pow2Of20();
    DigitsRoundTrip(Clamp(price), NB_DIGITS);
  }
}
