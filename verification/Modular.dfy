/** Arithmetic modulo a number: congruences, primes, and inverses. */
module Modular {

  type pos = x: int | x > 0 witness 1

  // ------------------------------------------------------ products and remainders

  // Statements about scalars use the recursive product and remainder, which keep
  // nonlinear arithmetic out of every definition; the lemmas beside them say that they
  // are the built-in operations.

  function Times(a: int, b: int): int
    decreases if a < 0 then -a else a
  {
    if a == 0 then 0 else if a > 0 then Times(a - 1, b) + b else Times(a + 1, b) - b
  }

  lemma {:induction false} TimesIs(a: int, b: int)
    ensures Times(a, b) == a * b
    decreases if a < 0 then -a else a
  {
    if a > 0 {
      TimesIs(a - 1, b);
      assert (a - 1) * b + b == a * b;
    } else if a < 0 {
      TimesIs(a + 1, b);
      assert (a + 1) * b - b == a * b;
    }
  }

  function Mod(v: int, p: pos): (r: nat)
    ensures r < p
    decreases if v < 0 then p - v else v
  {
    if v < 0 then Mod(v + p, p) else if v < p then v else Mod(v - p, p)
  }

  lemma {:induction false} ModIs(v: int, p: pos)
    ensures Mod(v, p) == v % p
    decreases if v < 0 then p - v else v
  {
    if v < 0 {
      ModIs(v + p, p);
      ModShift(v, p);
    } else if v >= p {
      ModIs(v - p, p);
      ModShift(v - p, p);
    } else {
      DivUnique(v, p, 0, v);
    }
  }

  lemma ModShift(v: int, p: pos)
    ensures (v + p) % p == v % p
  {
    var q, r := v / p, v % p;
    assert v + p == (q + 1) * p + r;
    DivUnique(v + p, p, q + 1, r);
    assert v + p == ((v + p) / p) * p + (v + p) % p;
  }

  /** The quotient of a number, by repeated subtraction. */
  function Div(v: nat, p: pos): nat {
    if v < p then 0 else 1 + Div(v - p, p)
  }

  lemma {:induction false} DivIs(v: nat, p: pos)
    ensures Div(v, p) == v / p
  {
    if v >= p {
      DivIs(v - p, p);
      var q, r := (v - p) / p, (v - p) % p;
      assert v == (q + 1) * p + r;
      DivUnique(v, p, q + 1, r);
    } else {
      DivUnique(v, p, 0, v);
    }
  }

  lemma TimesNat(a: nat, b: nat)
    ensures Times(a, b) >= 0
  {
    TimesIs(a, b);
  }

  ghost predicate Divides(d: pos, a: int) {
    Mod(a, d) == 0
  }

  ghost predicate IsPrime(p: int) {
    2 <= p && forall m: pos :: 2 <= m < p ==> !Divides(m, p)
  }

  /** `a` and `b` leave the same remainder modulo `p`. */
  ghost predicate Cong(p: pos, a: int, b: int) {
    Mod(a - b, p) == 0
  }

  // ---------------------------------------------------------------- congruences

  lemma MultipleMod(p: pos, k: int)
    ensures (k * p) % p == 0
  {
    var q, r := (k * p) / p, (k * p) % p;
    assert r == (k - q) * p;
    if k - q >= 1 {
      MulAtLeast(k - q, p);
    } else if k - q <= -1 {
      MulAtLeast(q - k, p);
    }
  }

  lemma MulAtLeast(k: int, p: pos)
    requires k >= 1
    ensures k * p >= p
  {
  }

  lemma CongWitness(p: pos, a: int, b: int) returns (k: int)
    requires Cong(p, a, b)
    ensures a - b == k * p
  {
    ModIs(a - b, p);
    k := (a - b) / p;
  }

  lemma CongIntro(p: pos, a: int, b: int, k: int)
    requires a - b == k * p
    ensures Cong(p, a, b)
  {
    ModIs(a - b, p);
    MultipleMod(p, k);
  }

  lemma CongRefl(p: pos, a: int)
    ensures Cong(p, a, a)
  {
  }

  lemma CongSym(p: pos, a: int, b: int)
    requires Cong(p, a, b)
    ensures Cong(p, b, a)
  {
    var k := CongWitness(p, a, b);
    hide Cong;
    assert b - a == (-k) * p;
    CongIntro(p, b, a, -k);
  }

  lemma CongTrans(p: pos, a: int, b: int, c: int)
    requires Cong(p, a, b) && Cong(p, b, c)
    ensures Cong(p, a, c)
  {
    hide Cong;
    var k := CongWitness(p, a, b);
    var l := CongWitness(p, b, c);
    assert a - c == (k + l) * p;
    CongIntro(p, a, c, k + l);
  }

  lemma CongAdd(p: pos, a: int, b: int, c: int, d: int)
    requires Cong(p, a, b) && Cong(p, c, d)
    ensures Cong(p, a + c, b + d)
  {
    hide Cong;
    var k := CongWitness(p, a, b);
    var l := CongWitness(p, c, d);
    assert a + c - (b + d) == (k + l) * p;
    CongIntro(p, a + c, b + d, k + l);
  }

  lemma CongMul(p: pos, a: int, b: int, c: int, d: int)
    requires Cong(p, a, b) && Cong(p, c, d)
    ensures Cong(p, a * c, b * d)
  {
    hide Cong;
    var k := CongWitness(p, a, b);
    var l := CongWitness(p, c, d);
    assert a * c - b * d == (a - b) * c + b * (c - d);
    assert (k * p) * c + b * (l * p) == (k * c + b * l) * p;
    CongIntro(p, a * c, b * d, k * c + b * l);
  }

  lemma CongNeg(p: pos, a: int, b: int)
    requires Cong(p, a, b)
    ensures Cong(p, -a, -b)
  {
    CongSym(p, a, b);
    assert b - a == -a - -b;
  }

  lemma CongSub(p: pos, a: int, b: int, c: int, d: int)
    requires Cong(p, a, b) && Cong(p, c, d)
    ensures Cong(p, a - c, b - d)
  {
    hide Cong;
    CongNeg(p, c, d);
    CongAdd(p, a, b, -c, -d);
  }

  /** A number is congruent to its remainder. */
  lemma CongMod(p: pos, a: int)
    ensures Cong(p, a % p, a)
  {
    assert a == p * (a / p) + a % p;
    assert a % p - a == -(a / p) * p;
    CongIntro(p, a % p, a, -(a / p));
  }

  lemma CongReduced(p: pos, a: int)
    ensures Cong(p, Mod(a, p), a)
  {
    ModIs(a, p);
    CongMod(p, a);
  }

  /** Two remainders that are congruent are equal. */
  lemma CongUnique(p: pos, a: int, b: int)
    requires Cong(p, a, b)
    requires 0 <= a < p && 0 <= b < p
    ensures a == b
  {
    var k := CongWitness(p, a, b);
    if k >= 1 {
      MulAtLeast(k, p);
    } else if k <= -1 {
      MulAtLeast(-k, p);
    }
  }

  lemma CongModEq(p: pos, a: int, b: int)
    ensures Cong(p, a, b) <==> a % p == b % p
  {
    CongMod(p, a);
    CongMod(p, b);
    if Cong(p, a, b) {
      CongTrans(p, a % p, a, b);
      CongSym(p, b % p, b);
      CongTrans(p, a % p, b, b % p);
      CongUnique(p, a % p, b % p);
    }
    if a % p == b % p {
      CongSym(p, a % p, a);
      CongTrans(p, a, a % p, b);
    }
  }

  // --------------------------------------------------------------------- primes

  /** A prime has no zero divisors: descend along the remainders of `p` by `b`. */
  lemma Euclid(p: pos, a: int, b: int)
    requires IsPrime(p)
    requires 0 < a < p && 0 < b < p
    ensures !Cong(p, a * b, 0)
    decreases b
  {
    var q, r := p / b, p % b;
    if Cong(p, a * b, 0) {
      if b == 1 {
        CongUnique(p, a, 0);
      } else {
        NotDivided(p, b);
        hide *;
        var k := CongWitness(p, a * b, 0);
        assert p == q * b + r;
        RemainderProduct(p, a, b, q, r, k);
        CongIntro(p, a * r, 0, a - q * k);
        Euclid(p, a, r);
      }
    }
  }

  lemma NotDivided(p: pos, b: pos)
    requires IsPrime(p) && 1 < b < p
    ensures 0 < p % b < b
  {
    assert !Divides(b, p);
    ModIs(p, b);
  }

  lemma RemainderProduct(p: int, a: int, b: int, q: int, r: int, k: int)
    requires p == q * b + r && a * b == k * p
    ensures a * r - 0 == (a - q * k) * p
  {
    assert a * r == a * p - q * (a * b);
  }

  /** The same for arbitrary representatives. */
  lemma NoZeroDivisors(p: pos, a: int, b: int)
    requires IsPrime(p)
    requires Cong(p, a * b, 0)
    ensures Cong(p, a, 0) || Cong(p, b, 0)
  {
    hide Cong;
    CongMod(p, a);
    CongMod(p, b);
    CongMul(p, a % p, a, b % p, b);
    CongTrans(p, (a % p) * (b % p), a * b, 0);
    if a % p != 0 && b % p != 0 {
      Euclid(p, a % p, b % p);
    }
    CongModEq(p, a, 0);
    CongModEq(p, b, 0);
  }

  lemma Cancel(p: pos, a: int, b: int, c: int)
    requires IsPrime(p)
    requires !Cong(p, c, 0)
    requires Cong(p, a * c, b * c)
    ensures Cong(p, a, b)
  {
    hide Cong;
    CongRefl(p, b * c);
    CongSub(p, a * c, b * c, b * c, b * c);
    assert a * c - b * c == (a - b) * c;
    NoZeroDivisors(p, a - b, c);
    CongRefl(p, b);
    CongAdd(p, a - b, 0, b, b);
  }

  // --------------------------------------------------------------------- powers

  function Pow(a: int, e: nat): int {
    if e == 0 then 1 else Times(a, Pow(a, e - 1))
  }

  lemma PowStep(a: int, e: nat)
    ensures Pow(a, 0) == 1
    ensures Pow(a, e + 1) == a * Pow(a, e)
  {
    TimesIs(a, Pow(a, e));
  }

  lemma {:induction false} PowAdd(a: int, d: nat, e: nat)
    ensures Pow(a, d + e) == Pow(a, d) * Pow(a, e)
  {
    if d > 0 {
      PowAdd(a, d - 1, e);
      PowStep(a, d - 1 + e);
      PowStep(a, d - 1);
      hide Pow;
      assert a * (Pow(a, d - 1) * Pow(a, e)) == (a * Pow(a, d - 1)) * Pow(a, e);
    }
  }

  lemma {:induction false} PowSquare(a: int, e: nat)
    ensures Pow(a * a, e) == Pow(a, 2 * e)
  {
    if e > 0 {
      PowSquare(a, e - 1);
      PowStep(a * a, e - 1);
      PowStep(a, 2 * e - 1);
      PowStep(a, 2 * e - 2);
      hide Pow;
      assert a * a * Pow(a, 2 * e - 2) == a * (a * Pow(a, 2 * e - 2));
    }
  }

  lemma {:induction false} CongPow(p: pos, a: int, b: int, e: nat)
    requires Cong(p, a, b)
    ensures Cong(p, Pow(a, e), Pow(b, e))
  {
    if e == 0 {
      CongRefl(p, 1);
    } else {
      hide Cong;
      CongPow(p, a, b, e - 1);
      CongMul(p, a, b, Pow(a, e - 1), Pow(b, e - 1));
      PowStep(a, e - 1);
      PowStep(b, e - 1);
    }
  }

  function Pow2(k: nat): pos {
    if k == 0 then 1 else 2 * Pow2(k - 1)
  }

  lemma {:induction false} Pow2Add(a: nat, b: nat)
    ensures Pow2(a + b) == Pow2(a) * Pow2(b)
  {
    if a > 0 {
      Pow2Add(a - 1, b);
      assert 2 * (Pow2(a - 1) * Pow2(b)) == 2 * Pow2(a - 1) * Pow2(b);
    }
  }

  lemma DivTwice(v: nat, d: pos)
    ensures (v / 2) / d == v / (2 * d)
  {
    var q, r := (v / 2) / d, (v / 2) % d;
    assert v / 2 == q * d + r;
    var rest := 2 * r + v % 2;
    assert v == q * (2 * d) + rest;
    assert 0 <= rest < 2 * d;
    DivUnique(v, 2 * d, q, rest);
  }

  lemma DivUnique(v: int, d: pos, q: int, r: int)
    requires v == q * d + r && 0 <= r < d
    ensures v / d == q
  {
    var q', r' := v / d, v % d;
    assert (q' - q) * d == r - r';
    if q' - q >= 1 { MulAtLeast(q' - q, d); }
    if q' - q <= -1 { MulAtLeast(q - q', d); }
  }

  lemma DivDiv(v: nat, a: pos, b: pos)
    ensures v / a / b == v / (a * b)
  {
    var q, r := v / a / b, (v / a) % b;
    var rest := r * a + v % a;
    assert v == (v / a) * a + v % a;
    assert v / a == q * b + r;
    Regroup3(q, a, b, r, v % a);
    RestBound(r, a, b, v % a);
    DivUnique(v, a * b, q, rest);
  }

  lemma Regroup3(q: int, a: int, b: int, r: int, s: int)
    ensures (q * b + r) * a + s == q * (a * b) + (r * a + s)
  {
    assert q * (a * b) == q * b * a;
  }

  lemma RestBound(r: int, a: pos, b: pos, s: int)
    requires 0 <= r <= b - 1 && 0 <= s < a
    ensures 0 <= r * a + s < a * b
  {
    assert r * a <= (b - 1) * a;
  }

  // ------------------------------------------------------ Fermat's little theorem

  /** The product of a finite set of numbers. */
  ghost function Prod(s: set<nat>): int {
    if s == {} then 1 else
    var x: nat :| x in s;
    x * Prod(s - {x})
  }

  lemma {:induction false} ProdRemove(s: set<nat>, x: nat)
    requires x in s
    ensures Prod(s) == x * Prod(s - {x})
    decreases s
  {
    var y :| y in s && Prod(s) == y * Prod(s - {y});
    if y != x {
      ProdRemove(s - {y}, x);
      ProdRemove(s - {x}, y);
      assert s - {y} - {x} == s - {x} - {y};
      Swap(y, x, Prod(s - {x} - {y}));
    }
  }

  lemma Swap(y: int, x: int, rest: int)
    ensures y * (x * rest) == x * (y * rest)
  {
  }

  ghost function UpTo(k: nat): (s: set<nat>)
    ensures forall x :: x in s <==> 1 <= x <= k
  {
    if k == 0 then {} else UpTo(k - 1) + {k}
  }

  /** The first `k` multiples of `a`, reduced modulo `p`. */
  ghost function Multiples(p: pos, a: int, k: nat): set<nat> {
    if k == 0 then {} else Multiples(p, a, k - 1) + {Residue(p, a, k)}
  }

  function Residue(p: pos, a: int, i: int): nat {
    (a * i) % p
  }

  lemma {:induction false} MultiplesMember(p: pos, a: int, k: nat, x: int) returns (i: int)
    requires x in Multiples(p, a, k)
    ensures 1 <= i <= k && x == Residue(p, a, i)
  {
    hide Residue;
    if x == Residue(p, a, k) {
      i := k;
    } else {
      i := MultiplesMember(p, a, k - 1, x);
    }
  }

  lemma DistinctResidues(p: pos, a: int, i: nat, j: nat)
    requires IsPrime(p) && 0 < a < p && 0 < i < j < p
    ensures Residue(p, a, j) != Residue(p, a, i)
  {
    if Residue(p, a, j) == Residue(p, a, i) {
      CongModEq(p, a * j, a * i);
      hide *;
      CongRefl(p, a * i);
      CongSub(p, a * j, a * i, a * i, a * i);
      assert a * j - a * i == a * (j - i);
      Euclid(p, a, j - i);
    }
  }

  lemma MultipleIsNew(p: pos, a: int, k: nat)
    requires IsPrime(p) && 0 < a < p && 0 < k < p
    ensures Residue(p, a, k) !in Multiples(p, a, k - 1)
  {
    hide *;
    if Residue(p, a, k) in Multiples(p, a, k - 1) {
      var i := MultiplesMember(p, a, k - 1, Residue(p, a, k));
      DistinctResidues(p, a, i, k);
    }
  }

  lemma CongResidue(p: pos, a: int, i: int)
    ensures Cong(p, Residue(p, a, i), a * i)
  {
    CongMod(p, a * i);
  }

  lemma EmptyProduct(p: pos, a: int)
    ensures Cong(p, Prod({}), Pow(a, 0) * Prod({}))
  {
    CongRefl(p, 1);
  }

  lemma NoMultiples(p: pos, a: int)
    ensures Multiples(p, a, 0) == {} == UpTo(0)
  {
  }

  lemma MultiplesUnfold(p: pos, a: int, k: nat)
    requires k > 0
    ensures Multiples(p, a, k) == Multiples(p, a, k - 1) + {Residue(p, a, k)}
    ensures UpTo(k) == UpTo(k - 1) + {k} && k !in UpTo(k - 1)
  {
  }

  lemma {:induction false} MultiplesCount(p: pos, a: int, k: nat)
    requires IsPrime(p) && 0 < a < p && k < p
    ensures |Multiples(p, a, k)| == k == |UpTo(k)|
    decreases k
  {
    hide *;
    if k == 0 {
      NoMultiples(p, a);
    } else {
      MultiplesUnfold(p, a, k);
      MultiplesCount(p, a, k - 1);
      MultipleIsNew(p, a, k);
      CountPlusOne(Multiples(p, a, k - 1), Residue(p, a, k));
      CountPlusOne(UpTo(k - 1), k);
    }
  }

  lemma CountPlusOne(s: set<nat>, x: nat)
    requires x !in s
    ensures |s + {x}| == |s| + 1
  {
  }

  lemma {:induction false} MultiplesProduct(p: pos, a: int, k: nat)
    requires IsPrime(p) && 0 < a < p && k < p
    ensures Cong(p, Prod(Multiples(p, a, k)), Pow(a, k) * Prod(UpTo(k)))
    decreases k
  {
    hide *;
    if k == 0 {
      NoMultiples(p, a);
      EmptyProduct(p, a);
    } else {
      MultiplesUnfold(p, a, k);
      MultiplesProduct(p, a, k - 1);
      MultipleIsNew(p, a, k);
      CongResidue(p, a, k);
      MultiplesProductStep(p, a, k, Residue(p, a, k), Multiples(p, a, k - 1), UpTo(k - 1));
    }
  }

  lemma MultiplesProductStep(p: pos, a: int, k: nat, m: nat, s: set<nat>, t: set<nat>)
    requires k > 0 && m !in s && k !in t
    requires Cong(p, m, a * k)
    requires Cong(p, Prod(s), Pow(a, k - 1) * Prod(t))
    ensures Cong(p, Prod(s + {m}), Pow(a, k) * Prod(t + {k}))
  {
    PowStep(a, k - 1);
    hide *;
    ProdRemove(s + {m}, m);
    assert s + {m} - {m} == s;
    ProdRemove(t + {k}, k);
    assert t + {k} - {k} == t;
    CongMul(p, m, a * k, Prod(s), Pow(a, k - 1) * Prod(t));
    Shuffle(a, k, Pow(a, k - 1), Prod(t));
  }

  lemma Shuffle(a: int, b: int, c: int, d: int)
    ensures (a * b) * (c * d) == (a * c) * (b * d)
  {
    assert (a * b) * (c * d) == a * c * b * d;
  }

  lemma MultipleInRange(p: pos, a: int, x: nat)
    requires IsPrime(p) && 0 < a < p
    requires x in Multiples(p, a, p - 1)
    ensures 1 <= x < p
  {
    var i := MultiplesMember(p, a, p - 1, x);
    Euclid(p, a, i);
    CongModEq(p, a * i, 0);
    assert x == (a * i) % p;
  }

  lemma MultiplesWithin(p: pos, a: int)
    requires IsPrime(p) && 0 < a < p
    ensures Multiples(p, a, p - 1) <= UpTo(p - 1)
  {
    hide Multiples, IsPrime;
    forall x: nat {:trigger x in UpTo(p - 1)} | x in Multiples(p, a, p - 1)
      ensures x in UpTo(p - 1)
    {
      MultipleInRange(p, a, x);
    }
  }

  lemma MultiplesRange(p: pos, a: int)
    requires IsPrime(p) && 0 < a < p
    ensures Multiples(p, a, p - 1) == UpTo(p - 1)
  {
    hide *;
    MultiplesWithin(p, a);
    MultiplesCount(p, a, p - 1);
    SubsetOfSameSize(Multiples(p, a, p - 1), UpTo(p - 1));
  }

  lemma SubsetOfSameSize(s: set<nat>, t: set<nat>)
    requires s <= t && |s| == |t|
    ensures s == t
  {
    assert |t - s| == |t| - |s|;
  }

  lemma {:induction false} FactorialIsUnit(p: pos, k: nat)
    requires IsPrime(p) && k < p
    ensures !Cong(p, Prod(UpTo(k)), 0)
  {
    if k == 0 {
      assert UpTo(0) == {};
      if Cong(p, 1, 0) { CongUnique(p, 1, 0); }
    } else {
      FactorialIsUnit(p, k - 1);
      ProdRemove(UpTo(k), k);
      assert UpTo(k) - {k} == UpTo(k - 1);
      if Cong(p, k * Prod(UpTo(k - 1)), 0) {
        NoZeroDivisors(p, k, Prod(UpTo(k - 1)));
        CongUnique(p, k, 0);
      }
    }
  }

  /** Fermat's little theorem. */
  lemma Fermat(p: pos, a: int)
    requires IsPrime(p) && 0 < a < p
    ensures Cong(p, Pow(a, p - 1), 1)
  {
    hide *;
    var f := Prod(UpTo(p - 1));
    MultiplesProduct(p, a, p - 1);
    MultiplesRange(p, a);
    FactorialIsUnit(p, p - 1);
    CongSym(p, f, Pow(a, p - 1) * f);
    assert 1 * f == f;
    Cancel(p, Pow(a, p - 1), 1, f);
  }

  /** `a^(p-2)` is the inverse of `a`. */
  lemma FermatInverse(p: pos, a: int, e: nat)
    requires IsPrime(p) && 0 < a < p && e == p - 2
    ensures Cong(p, a * Pow(a, e), 1)
  {
    Fermat(p, a);
    PowStep(a, e);
  }

  /** The inverse of a unit, as the remainder it is. */
  ghost function InverseOf(p: pos, a: int): (r: nat)
    requires IsPrime(p) && 0 < a < p
    ensures 0 < r < p
  {
    InversePositive(p, a);
    Mod(Pow(a, p - 2), p)
  }

  lemma InversePositive(p: pos, a: int)
    requires IsPrime(p) && 0 < a < p
    ensures 0 < Mod(Pow(a, p - 2), p) && Cong(p, a * Mod(Pow(a, p - 2), p), 1)
  {
    FermatInverse(p, a, p - 2);
    ReducedInverse(p, a, Pow(a, p - 2));
    ModIs(Pow(a, p - 2), p);
  }

  lemma InverseIs(p: pos, a: int)
    requires IsPrime(p) && 0 < a < p
    ensures Cong(p, a * InverseOf(p, a), 1)
  {
    InversePositive(p, a);
  }

  lemma ReducedInverse(p: pos, a: int, v: int)
    requires p >= 2 && Cong(p, a * v, 1)
    ensures 0 < v % p < p && Cong(p, a * (v % p), 1)
  {
    var r := v % p;
    CongMod(p, v);
    assert 0 <= r < p;
    hide Cong;
    CongRefl(p, a);
    CongMul(p, a, a, r, v);
    CongTrans(p, a * r, a * v, 1);
    if r == 0 {
      CongSym(p, a * r, 1);
      CongUnique(p, 1, 0);
    }
  }

  lemma InverseUnique(p: pos, a: int, r: int)
    requires IsPrime(p) && 0 < a < p && 0 <= r < p
    requires Cong(p, a * r, 1)
    ensures r == InverseOf(p, a)
  {
    hide *;
    var s := InverseOf(p, a);
    InverseIs(p, a);
    CongSym(p, a * s, 1);
    CongTrans(p, a * r, 1, a * s);
    UnitNotZero(p, a);
    assert a * r == r * a && a * s == s * a;
    Cancel(p, r, s, a);
    CongUnique(p, r, s);
  }

  lemma UnitNotZero(p: pos, a: int)
    requires 0 < a < p
    ensures !Cong(p, a, 0)
  {
    if Cong(p, a, 0) { CongUnique(p, a, 0); }
  }
}
