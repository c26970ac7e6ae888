/** Polynomials modulo a prime, and Lagrange interpolation at zero.

    The proof goes through divided differences: over distinct nodes Q the weights
    W(j) = 1 / prod (j - m) send every polynomial with fewer than |Q| coefficients to
    zero, because dividing out one root removes one node and one coefficient. */
module Lagrange {
  import opened Modular

  /** The value at `x` of the polynomial with coefficients `cs`, constant term first. */
  function PolyVal(cs: seq<int>, x: int): int {
    if |cs| == 0 then 0 else cs[0] + Times(x, PolyVal(cs[1..], x))
  }

  lemma PolyStep(cs: seq<int>, x: int)
    requires |cs| > 0
    ensures PolyVal(cs, x) == cs[0] + x * PolyVal(cs[1..], x)
  {
    TimesIs(x, PolyVal(cs[1..], x));
  }

  lemma PolyOfOne(c: int, x: int)
    ensures PolyVal([c], x) == c
  {
    PolyStep([c], x);
    assert PolyVal([], x) == 0;
  }

  /** The quotient of a polynomial by `x - b`. */
  function Quot(cs: seq<int>, b: int): (q: seq<int>)
    ensures |cs| > 0 ==> |q| == |cs| - 1
  {
    if |cs| <= 1 then [] else [PolyVal(cs[1..], b)] + Quot(cs[1..], b)
  }

  lemma {:induction false} Division(cs: seq<int>, b: int, x: int)
    ensures PolyVal(cs, x) == PolyVal(cs, b) + (x - b) * PolyVal(Quot(cs, b), x)
  {
    if |cs| == 1 {
      assert cs == [cs[0]];
      PolyOfOne(cs[0], x);
      PolyOfOne(cs[0], b);
    } else if |cs| > 1 {
      Division(cs[1..], b, x);
      assert Quot(cs, b)[1..] == Quot(cs[1..], b);
      PolyStep(cs, x);
      PolyStep(cs, b);
      PolyStep(Quot(cs, b), x);
      hide PolyVal, Quot;
      DivisionStep(PolyVal(cs[1..], x), PolyVal(cs[1..], b), PolyVal(Quot(cs[1..], b), x), x, b);
    }
  }

  lemma DivisionStep(rx: int, rb: int, q: int, x: int, b: int)
    requires rx == rb + (x - b) * q
    ensures x * rx == b * rb + (x - b) * (rb + x * q)
  {
    assert x * rx == x * rb + x * ((x - b) * q);
    assert (x - b) * (rb + x * q) == x * rb - b * rb + (x - b) * (x * q);
    assert x * ((x - b) * q) == (x - b) * (x * q);
  }

  // ---------------------------------------------------------------------- nodes

  /** The nodes are pairwise different modulo `p`. */
  ghost predicate Distinct(p: pos, nodes: seq<int>) {
    forall i, j :: 0 <= i < j < |nodes| ==> !Cong(p, nodes[i], nodes[j])
  }

  ghost predicate Apart(p: pos, x: int, nodes: seq<int>) {
    forall i :: 0 <= i < |nodes| ==> !Cong(p, x, nodes[i])
  }

  /** The inverse of any representative (0 for a multiple of `p`). */
  ghost function Inv(p: pos, u: int): int
    requires IsPrime(p)
  {
    if Mod(u, p) == 0 then 0 else InverseOf(p, Mod(u, p))
  }

  lemma InvIs(p: pos, u: int)
    requires IsPrime(p) && !Cong(p, u, 0)
    ensures Cong(p, u * Inv(p, u), 1)
  {
    CongModEq(p, u, 0);
    ModIs(u, p);
    CongReduced(p, u);
    InverseIs(p, Mod(u, p));
    InvMul(p, u, Mod(u, p), Inv(p, u));
  }

  lemma InvMul(p: pos, u: int, r: int, inv: int)
    requires Cong(p, r, u) && Cong(p, r * inv, 1)
    ensures Cong(p, u * inv, 1)
  {
    hide *;
    CongSym(p, r, u);
    CongRefl(p, inv);
    CongMul(p, u, r, inv, inv);
    CongTrans(p, u * inv, r * inv, 1);
  }

  lemma DiffIsUnit(p: pos, a: int, b: int)
    requires !Cong(p, a, b)
    ensures !Cong(p, a - b, 0)
  {
  }

  /** `prod 1 / (j - m)` over the nodes `m` other than `j`. */
  ghost function Weight(p: pos, j: int, nodes: seq<int>): int
    requires IsPrime(p)
  {
    if |nodes| == 0 then 1 else Times(Factor(p, j, nodes[0]), Weight(p, j, nodes[1..]))
  }

  lemma WeightStep(p: pos, j: int, nodes: seq<int>)
    requires IsPrime(p) && |nodes| > 0
    ensures Weight(p, j, nodes) == Factor(p, j, nodes[0]) * Weight(p, j, nodes[1..])
  {
    TimesIs(Factor(p, j, nodes[0]), Weight(p, j, nodes[1..]));
  }

  lemma WeightAlone(p: pos, j: int)
    requires IsPrime(p)
    ensures Weight(p, j, [j]) == 1
  {
    WeightStep(p, j, [j]);
    assert Weight(p, j, []) == 1;
  }

  ghost function Factor(p: pos, j: int, m: int): int
    requires IsPrime(p)
  {
    if m == j then 1 else Inv(p, j - m)
  }

  function Remove(nodes: seq<int>, m: int): seq<int> {
    if |nodes| == 0 then []
    else if nodes[0] == m then nodes[1..]
    else [nodes[0]] + Remove(nodes[1..], m)
  }

  lemma {:induction false} RemoveMember(nodes: seq<int>, m: int)
    ensures forall x :: x in Remove(nodes, m) ==> x in nodes
    ensures m in nodes ==> |Remove(nodes, m)| == |nodes| - 1
    ensures m !in nodes ==> Remove(nodes, m) == nodes
    ensures forall x :: x in nodes && x != m ==> x in Remove(nodes, m)
  {
    if |nodes| > 0 && nodes[0] != m {
      RemoveMember(nodes[1..], m);
      assert nodes == [nodes[0]] + nodes[1..];
    } else if |nodes| > 0 {
      assert nodes == [nodes[0]] + nodes[1..];
    }
  }

  lemma DistinctTail(p: pos, nodes: seq<int>)
    requires |nodes| > 0 && Distinct(p, nodes)
    ensures Distinct(p, nodes[1..]) && Apart(p, nodes[0], nodes[1..])
  {
    hide Cong;
  }

  lemma DistinctCons(p: pos, x: int, nodes: seq<int>)
    requires Distinct(p, nodes) && Apart(p, x, nodes)
    ensures Distinct(p, [x] + nodes)
  {
    hide Cong;
  }

  lemma ApartMember(p: pos, x: int, nodes: seq<int>, m: int)
    requires Apart(p, x, nodes) && m in nodes
    ensures !Cong(p, x, m) && x != m
  {
    CongRefl(p, x);
    hide Cong;
  }

  lemma {:induction false} RemoveApart(p: pos, x: int, nodes: seq<int>, m: int)
    requires Apart(p, x, nodes)
    ensures Apart(p, x, Remove(nodes, m))
  {
    hide Cong;
    RemoveMember(nodes, m);
    forall i | 0 <= i < |Remove(nodes, m)|
      ensures !Cong(p, x, Remove(nodes, m)[i])
    {
      assert Remove(nodes, m)[i] in nodes;
    }
  }

  lemma {:induction false} RemoveDistinct(p: pos, nodes: seq<int>, m: int)
    requires Distinct(p, nodes)
    ensures Distinct(p, Remove(nodes, m))
  {
    hide Cong;
    if |nodes| > 0 {
      DistinctTail(p, nodes);
      if nodes[0] != m {
        RemoveDistinct(p, nodes[1..], m);
        RemoveApart(p, nodes[0], nodes[1..], m);
        DistinctCons(p, nodes[0], Remove(nodes[1..], m));
      }
    }
  }

  // -------------------------------------------------------- removing one node

  /** Multiplying a weight by `j - m` removes the node `m`. */
  lemma {:induction false} WeightRemove(p: pos, j: int, m: int, nodes: seq<int>)
    requires IsPrime(p) && !Cong(p, j, m) && m in nodes
    ensures Cong(p, (j - m) * Weight(p, j, nodes), Weight(p, j, Remove(nodes, m)))
  {
    hide IsPrime, Cong, Inv;
    var rest := Weight(p, j, nodes[1..]);
    WeightStep(p, j, nodes);
    if nodes[0] == m {
      DiffIsUnit(p, j, m);
      InvIs(p, j - m);
      if m == j { CongRefl(p, j); }
      CancelFactor(p, j - m, Inv(p, j - m), rest);
    } else {
      WeightRemove(p, j, m, nodes[1..]);
      assert Remove(nodes, m)[1..] == Remove(nodes[1..], m);
      WeightStep(p, j, Remove(nodes, m));
      PullFactor(p, j - m, Factor(p, j, nodes[0]), rest, Weight(p, j, Remove(nodes[1..], m)));
    }
  }

  lemma CancelFactor(p: pos, u: int, inv: int, rest: int)
    requires Cong(p, u * inv, 1)
    ensures Cong(p, u * (inv * rest), rest)
  {
    hide *;
    CongRefl(p, rest);
    CongMul(p, u * inv, 1, rest, rest);
    assert u * inv * rest == u * (inv * rest);
  }

  lemma PullFactor(p: pos, u: int, f: int, rest: int, v: int)
    requires Cong(p, u * rest, v)
    ensures Cong(p, u * (f * rest), f * v)
  {
    hide *;
    CongRefl(p, f);
    CongMul(p, f, f, u * rest, v);
    assert f * (u * rest) == u * (f * rest);
  }

  // ------------------------------------------------------------- weighted sums

  /** `sum f(j) * W(j)` over `js`, with the weights of `nodes`. */
  ghost function Sum(p: pos, cs: seq<int>, js: seq<int>, nodes: seq<int>): int
    requires IsPrime(p)
  {
    if |js| == 0 then 0
    else Times(PolyVal(cs, js[0]), Weight(p, js[0], nodes)) + Sum(p, cs, js[1..], nodes)
  }

  lemma SumStep(p: pos, cs: seq<int>, js: seq<int>, nodes: seq<int>)
    requires IsPrime(p) && |js| > 0
    ensures Sum(p, cs, js, nodes) == PolyVal(cs, js[0]) * Weight(p, js[0], nodes) + Sum(p, cs, js[1..], nodes)
  {
    TimesIs(PolyVal(cs, js[0]), Weight(p, js[0], nodes));
  }

  /** `sum (j - m) * f(j) * W(j)`. */
  ghost function Shifted(p: pos, cs: seq<int>, m: int, js: seq<int>, nodes: seq<int>): int
    requires IsPrime(p)
  {
    if |js| == 0 then 0
    else Times(PolyVal(cs, js[0]), Times(js[0] - m, Weight(p, js[0], nodes))) + Shifted(p, cs, m, js[1..], nodes)
  }

  lemma ShiftedStep(p: pos, cs: seq<int>, m: int, js: seq<int>, nodes: seq<int>)
    requires IsPrime(p) && |js| > 0
    ensures Shifted(p, cs, m, js, nodes) ==
      PolyVal(cs, js[0]) * ((js[0] - m) * Weight(p, js[0], nodes)) + Shifted(p, cs, m, js[1..], nodes)
  {
    TimesIs(js[0] - m, Weight(p, js[0], nodes));
    TimesIs(PolyVal(cs, js[0]), (js[0] - m) * Weight(p, js[0], nodes));
  }

  /** Distinct nodes: every two are equal as numbers or different modulo `p`. */
  ghost predicate Separated(p: pos, js: seq<int>, nodes: seq<int>) {
    forall x, y :: x in js && y in nodes ==> x == y || !Cong(p, x, y)
  }

  lemma DistinctSeparated(p: pos, nodes: seq<int>)
    requires Distinct(p, nodes)
    ensures Separated(p, nodes, nodes)
  {
    forall x, y | x in nodes && y in nodes && x != y
      ensures !Cong(p, x, y)
    {
      var i :| 0 <= i < |nodes| && nodes[i] == x;
      var j :| 0 <= j < |nodes| && nodes[j] == y;
      if Cong(p, x, y) { CongSym(p, x, y); }
    }
  }

  /** The factor `x - m` removes the node `m` from the whole sum. */
  lemma {:induction false} SumRemove(p: pos, cs: seq<int>, m: int, js: seq<int>, nodes: seq<int>)
    requires IsPrime(p) && m in nodes
    requires Distinct(p, js) && Separated(p, js, nodes)
    ensures Cong(p, Shifted(p, cs, m, js, nodes), Sum(p, cs, Remove(js, m), Remove(nodes, m)))
  {
    hide IsPrime, Cong, Weight, PolyVal, Distinct;
    if |js| == 0 {
      CongRefl(p, 0);
    } else {
      DistinctTail(p, js);
      SumRemove(p, cs, m, js[1..], nodes);
      var w, v := Weight(p, js[0], nodes), PolyVal(cs, js[0]);
      ShiftedStep(p, cs, m, js, nodes);
      if js[0] == m {
        ApartNotIn(p, m, js[1..]);
        RemoveMember(js[1..], m);
        assert v * ((m - m) * w) == 0;
      } else {
        WeightRemove(p, js[0], m, nodes);
        var w' := Weight(p, js[0], Remove(nodes, m));
        assert Remove(js, m)[1..] == Remove(js[1..], m);
        SumStep(p, cs, Remove(js, m), Remove(nodes, m));
        CongRefl(p, v);
        CongMul(p, v, v, (js[0] - m) * w, w');
        CongAdd(p, v * ((js[0] - m) * w), v * w', Shifted(p, cs, m, js[1..], nodes),
                Sum(p, cs, Remove(js[1..], m), Remove(nodes, m)));
      }
    }
  }

  lemma ApartNotIn(p: pos, x: int, nodes: seq<int>)
    requires Apart(p, x, nodes)
    ensures x !in nodes
  {
    if x in nodes { ApartMember(p, x, nodes, x); }
  }

  /** (b - a) * sum W(j) as a difference of two shifted sums. */
  lemma {:induction false} OnesSplit(p: pos, a: int, b: int, js: seq<int>, nodes: seq<int>)
    requires IsPrime(p)
    ensures (b - a) * Sum(p, [1], js, nodes) == Shifted(p, [1], a, js, nodes) - Shifted(p, [1], b, js, nodes)
  {
    hide IsPrime, Weight;
    if |js| > 0 {
      OnesSplit(p, a, b, js[1..], nodes);
      SumStep(p, [1], js, nodes);
      ShiftedStep(p, [1], a, js, nodes);
      ShiftedStep(p, [1], b, js, nodes);
      PolyOfOne(1, js[0]);
      OnesStep(a, b, js[0], Weight(p, js[0], nodes), Sum(p, [1], js[1..], nodes));
    }
  }

  lemma OnesStep(a: int, b: int, j: int, w: int, rest: int)
    ensures (b - a) * (1 * w + rest) == 1 * ((j - a) * w) - 1 * ((j - b) * w) + (b - a) * rest
  {
  }

  /** Divide the polynomial by `x - b` under the sum. */
  lemma {:induction false} DivideSum(p: pos, cs: seq<int>, b: int, js: seq<int>, nodes: seq<int>)
    requires IsPrime(p)
    ensures Sum(p, cs, js, nodes) ==
      PolyVal(cs, b) * Sum(p, [1], js, nodes) + Shifted(p, Quot(cs, b), b, js, nodes)
  {
    hide IsPrime, Weight;
    if |js| > 0 {
      DivideSum(p, cs, b, js[1..], nodes);
      SumStep(p, cs, js, nodes);
      SumStep(p, [1], js, nodes);
      ShiftedStep(p, Quot(cs, b), b, js, nodes);
      PolyOfOne(1, js[0]);
      Division(cs, b, js[0]);
      DivideStep(PolyVal(cs, js[0]), PolyVal(cs, b), PolyVal(Quot(cs, b), js[0]), js[0], b,
                 Weight(p, js[0], nodes), Sum(p, [1], js[1..], nodes), Shifted(p, Quot(cs, b), b, js[1..], nodes));
    }
  }

  lemma DivideStep(fx: int, fb: int, q: int, x: int, b: int, w: int, ones: int, shifted: int)
    requires fx == fb + (x - b) * q
    ensures fx * w + (fb * ones + shifted) == fb * (1 * w + ones) + (q * ((x - b) * w) + shifted)
  {
    assert fx * w == fb * w + (x - b) * q * w;
    assert (x - b) * q * w == q * ((x - b) * w);
  }

  // ----------------------------------------------------------- the sums vanish

  lemma SumOfOne(p: pos, j: int)
    requires IsPrime(p)
    ensures Sum(p, [1], [j], [j]) == 1
  {
    SumStep(p, [1], [j], [j]);
    WeightAlone(p, j);
    PolyOfOne(1, j);
  }

  /** Over two or more nodes the weights add up to zero. */
  lemma {:induction false} OnesVanish(p: pos, nodes: seq<int>)
    requires IsPrime(p) && Distinct(p, nodes) && |nodes| >= 2
    ensures Cong(p, Sum(p, [1], nodes, nodes), 0)
    decreases |nodes|
  {
    var b, a := nodes[0], nodes[1];
    assert !Cong(p, b, a);
    DistinctSeparated(p, nodes);
    hide *;
    var qa, qb := Remove(nodes, a), Remove(nodes, b);
    SumRemove(p, [1], a, nodes, nodes);
    SumRemove(p, [1], b, nodes, nodes);
    RemoveMember(nodes, a);
    RemoveMember(nodes, b);
    RemoveDistinct(p, nodes, a);
    RemoveDistinct(p, nodes, b);
    var x, y := Sum(p, [1], qa, qa), Sum(p, [1], qb, qb);
    if |nodes| == 2 {
      assert qa == [qa[0]] && qb == [qb[0]];
      SumOfOne(p, qa[0]);
      SumOfOne(p, qb[0]);
      CongRefl(p, 0);
    } else {
      OnesVanish(p, qa);
      OnesVanish(p, qb);
      CongSub(p, x, 0, y, 0);
    }
    OnesSplit(p, a, b, nodes, nodes);
    FinishOnes(p, a, b, Sum(p, [1], nodes, nodes), Shifted(p, [1], a, nodes, nodes), Shifted(p, [1], b, nodes, nodes),
               x, y);
  }

  lemma FinishOnes(p: pos, a: int, b: int, s: int, sa: int, sb: int, x: int, y: int)
    requires IsPrime(p) && !Cong(p, b, a)
    requires (b - a) * s == sa - sb
    requires Cong(p, sa, x) && Cong(p, sb, y) && Cong(p, x - y, 0)
    ensures Cong(p, s, 0)
  {
    hide *;
    CongSub(p, sa, x, sb, y);
    CongTrans(p, sa - sb, x - y, 0);
    DiffIsUnit(p, b, a);
    NoZeroDivisors(p, b - a, s);
  }

  /** The divided difference: divide out one node after another, and evaluate what is left
      at the last. */
  function Divided(cs: seq<int>, nodes: seq<int>): int
    decreases |nodes|
  {
    if |nodes| == 0 then 0
    else if |nodes| == 1 then PolyVal(cs, nodes[0])
    else Divided(Quot(cs, nodes[0]), nodes[1..])
  }

  /** Coefficient number `n`, or zero when there are fewer. */
  function Lead(cs: seq<int>, n: nat): int {
    if |cs| == n && n > 0 then cs[n - 1] else 0
  }

  /** For a polynomial with no more coefficients than nodes it is the coefficient that
      goes with the last node: zero when there are fewer. */
  lemma {:induction false} DividedLead(cs: seq<int>, nodes: seq<int>)
    requires |cs| <= |nodes|
    ensures Divided(cs, nodes) == Lead(cs, |nodes|)
    decreases |nodes|
  {
    if |nodes| == 1 {
      if |cs| == 1 {
        assert cs == [cs[0]];
        PolyOfOne(cs[0], nodes[0]);
      }
    } else if |nodes| > 1 {
      hide PolyVal;
      DividedLead(Quot(cs, nodes[0]), nodes[1..]);
      if |cs| > 0 { QuotLead(cs, nodes[0], |nodes|); }
    }
  }

  lemma {:induction false} QuotLead(cs: seq<int>, b: int, n: nat)
    requires n >= 2 && 0 < |cs| <= n
    ensures Lead(Quot(cs, b), n - 1) == Lead(cs, n)
  {
    if |cs| == n && n > 2 {
      QuotLead(cs[1..], b, n - 1);
    } else if |cs| == n {
      PolyOfOne(cs[1], b);
      assert cs[1..] == [cs[1]];
    }
  }

  lemma SumOfValue(p: pos, cs: seq<int>, x: int)
    requires IsPrime(p)
    ensures Sum(p, cs, [x], [x]) == PolyVal(cs, x)
  {
    SumStep(p, cs, [x], [x]);
    WeightAlone(p, x);
  }

  /** The weighted sum of a polynomial is its divided difference, however many coefficients
      it has. */
  lemma {:induction false} DividedDifference(p: pos, cs: seq<int>, nodes: seq<int>)
    requires IsPrime(p) && Distinct(p, nodes) && |nodes| > 0
    ensures Cong(p, Sum(p, cs, nodes, nodes), Divided(cs, nodes))
    decreases |nodes|
  {
    if |nodes| == 1 {
      assert nodes == [nodes[0]];
      SumOfValue(p, cs, nodes[0]);
      CongRefl(p, PolyVal(cs, nodes[0]));
    } else {
      var b, q := nodes[0], nodes[1..];
      assert Remove(nodes, b) == q && Divided(cs, nodes) == Divided(Quot(cs, b), q);
      hide *;
      OnesVanish(p, nodes);
      DivideSum(p, cs, b, nodes, nodes);
      DistinctSeparated(p, nodes);
      SumRemove(p, Quot(cs, b), b, nodes, nodes);
      RemoveDistinct(p, nodes, b);
      DividedDifference(p, Quot(cs, b), q);
      var v, ones, sh := PolyVal(cs, b), Sum(p, [1], nodes, nodes), Shifted(p, Quot(cs, b), b, nodes, nodes);
      var d := Divided(cs, nodes);
      CongTrans(p, sh, Sum(p, Quot(cs, b), q, q), d);
      CongRefl(p, v);
      CongMul(p, v, v, ones, 0);
      CongAdd(p, v * ones, v * 0, sh, d);
      assert v * 0 + d == d;
    }
  }

  // ------------------------------------------------------- interpolation at zero

  /** `prod m` over the nodes other than `j`. */
  function Numerator(j: int, nodes: seq<int>): int {
    if |nodes| == 0 then 1
    else Times(if nodes[0] == j then 1 else nodes[0], Numerator(j, nodes[1..]))
  }

  /** `prod (m - j)` over the nodes other than `j`. */
  function Denominator(j: int, nodes: seq<int>): int {
    if |nodes| == 0 then 1
    else Times(if nodes[0] == j then 1 else nodes[0] - j, Denominator(j, nodes[1..]))
  }

  lemma FractionStep(j: int, nodes: seq<int>)
    requires |nodes| > 0
    ensures Numerator(j, nodes) == (if nodes[0] == j then 1 else nodes[0]) * Numerator(j, nodes[1..])
    ensures Denominator(j, nodes) == (if nodes[0] == j then 1 else nodes[0] - j) * Denominator(j, nodes[1..])
  {
    TimesIs(if nodes[0] == j then 1 else nodes[0], Numerator(j, nodes[1..]));
    TimesIs(if nodes[0] == j then 1 else nodes[0] - j, Denominator(j, nodes[1..]));
  }

  /** `prod (0 - m)`. */
  function NegProduct(nodes: seq<int>): int {
    if |nodes| == 0 then 1 else Times(0 - nodes[0], NegProduct(nodes[1..]))
  }

  lemma NegStep(nodes: seq<int>)
    requires |nodes| > 0
    ensures NegProduct(nodes) == (0 - nodes[0]) * NegProduct(nodes[1..])
  {
    TimesIs(0 - nodes[0], NegProduct(nodes[1..]));
  }

  /** The Lagrange coefficient written with the factors of `Weight`. */
  ghost function Coefficient(p: pos, j: int, nodes: seq<int>): int
    requires IsPrime(p)
  {
    if |nodes| == 0 then 1
    else Times(if nodes[0] == j then 1 else Times(0 - nodes[0], Inv(p, j - nodes[0])), Coefficient(p, j, nodes[1..]))
  }

  lemma CoefficientStep(p: pos, j: int, nodes: seq<int>)
    requires IsPrime(p) && |nodes| > 0
    ensures Coefficient(p, j, nodes) ==
      (if nodes[0] == j then 1 else (0 - nodes[0]) * Inv(p, j - nodes[0])) * Coefficient(p, j, nodes[1..])
  {
    if nodes[0] != j { TimesIs(0 - nodes[0], Inv(p, j - nodes[0])); }
    TimesIs(if nodes[0] == j then 1 else (0 - nodes[0]) * Inv(p, j - nodes[0]), Coefficient(p, j, nodes[1..]));
  }

  /** `coeff` is the Lagrange coefficient of `j`: numerator over denominator. */
  ghost predicate IsLambda(p: pos, coeff: int, j: int, nodes: seq<int>) {
    Cong(p, Times(coeff, Denominator(j, nodes)), Numerator(j, nodes))
  }

  lemma LambdaMeans(p: pos, coeff: int, j: int, nodes: seq<int>)
    ensures IsLambda(p, coeff, j, nodes) <==> Cong(p, coeff * Denominator(j, nodes), Numerator(j, nodes))
  {
    TimesIs(coeff, Denominator(j, nodes));
  }

  lemma {:induction false} DenominatorIsUnit(p: pos, j: int, js: seq<int>)
    requires IsPrime(p)
    requires forall m :: m in js ==> m == j || !Cong(p, m, j)
    ensures !Cong(p, Denominator(j, js), 0)
  {
    if |js| == 0 {
      OneIsUnit(p);
    } else {
      assert js[0] in js;
      forall m | m in js[1..] ensures m in js {}
      var d := if js[0] == j then 1 else js[0] - j;
      FractionStep(j, js);
      OneIsUnit(p);
      if js[0] != j { DiffIsUnit(p, js[0], j); }
      DenominatorIsUnit(p, j, js[1..]);
      ProductIsUnit(p, d, Denominator(j, js[1..]));
    }
  }

  lemma OneIsUnit(p: pos)
    requires IsPrime(p)
    ensures !Cong(p, 1, 0)
  {
    UnitNotZero(p, 1);
  }

  lemma ProductIsUnit(p: pos, a: int, b: int)
    requires IsPrime(p) && !Cong(p, a, 0) && !Cong(p, b, 0)
    ensures !Cong(p, a * b, 0)
  {
    hide *;
    if Cong(p, a * b, 0) { NoZeroDivisors(p, a, b); }
  }

  lemma {:induction false} CoefficientIsLambda(p: pos, j: int, js: seq<int>)
    requires IsPrime(p)
    requires forall m :: m in js ==> m == j || !Cong(p, m, j)
    ensures IsLambda(p, Coefficient(p, j, js), j, js)
  {
    hide IsPrime, Cong, Inv;
    LambdaMeans(p, Coefficient(p, j, js), j, js);
    if |js| == 0 {
      CongRefl(p, 1);
    } else {
      assert js[0] in js;
      forall m | m in js[1..] ensures m in js {}
      CoefficientIsLambda(p, j, js[1..]);
      LambdaMeans(p, Coefficient(p, j, js[1..]), j, js[1..]);
      FractionStep(j, js);
      CoefficientStep(p, j, js);
      hide IsLambda, Times;
      var m, c, d, n := js[0], Coefficient(p, j, js[1..]), Denominator(j, js[1..]), Numerator(j, js[1..]);
      if m != j {
        if Cong(p, j, m) { CongSym(p, j, m); }
        DiffIsUnit(p, j, m);
        InvIs(p, j - m);
        LambdaStep(p, m, j, Inv(p, j - m), c, d, n);
      } else {
        assert 1 * c == c && 1 * d == d && 1 * n == n;
      }
    }
  }

  lemma LambdaStep(p: pos, m: int, j: int, inv: int, c: int, d: int, n: int)
    requires Cong(p, (j - m) * inv, 1) && Cong(p, c * d, n)
    ensures Cong(p, ((0 - m) * inv * c) * ((m - j) * d), m * n)
  {
    hide *;
    CongMul(p, (j - m) * inv, 1, c * d, n);
    CongRefl(p, m);
    CongMul(p, m, m, (j - m) * inv * (c * d), 1 * n);
    LambdaAlgebra(m, j, inv, c, d);
  }

  lemma LambdaAlgebra(m: int, j: int, inv: int, c: int, d: int)
    ensures ((0 - m) * inv * c) * ((m - j) * d) == m * ((j - m) * inv * (c * d))
  {
    var t := inv * (c * d);
    Shuffle((0 - m), inv * c, m - j, d);
    assert (0 - m) * (inv * c) == (0 - m) * inv * c;
    assert (inv * c) * d == t;
    SignSwap(m, j, t);
    assert (j - m) * inv * (c * d) == (j - m) * t;
  }

  lemma SignSwap(m: int, j: int, t: int)
    ensures ((0 - m) * (m - j)) * t == m * ((j - m) * t)
  {
    assert (0 - m) * (m - j) == m * (j - m);
  }

  /** Coefficients and weights differ by the product of the nodes. */
  lemma {:induction false} CoefficientWeight(p: pos, j: int, js: seq<int>)
    requires IsPrime(p) && Distinct(p, js)
    ensures j !in js ==> NegProduct(js) * Weight(p, j, js) == Coefficient(p, j, js)
    ensures j in js ==> NegProduct(js) * Weight(p, j, js) == (0 - j) * Coefficient(p, j, js)
  {
    hide IsPrime, Cong, Inv, Distinct;
    if |js| > 0 {
      DistinctTail(p, js);
      CoefficientWeight(p, j, js[1..]);
      NegStep(js);
      WeightStep(p, j, js);
      CoefficientStep(p, j, js);
      var n, w, c := NegProduct(js[1..]), Weight(p, j, js[1..]), Coefficient(p, j, js[1..]);
      if js[0] == j {
        ApartNotIn(p, j, js[1..]);
        assert (0 - j) * n * (1 * w) == (0 - j) * (1 * (n * w));
      } else {
        var m, inv := js[0], Inv(p, j - js[0]);
        Regroup(0 - m, n, inv, w);
        if j in js[1..] {
          Regroup2((0 - m) * inv, 0 - j, c);
        }
      }
    }
  }

  lemma Regroup(a: int, b: int, c: int, d: int)
    ensures (a * b) * (c * d) == (a * c) * (b * d)
  {
    Shuffle(a, b, c, d);
  }

  lemma Regroup2(a: int, b: int, c: int)
    ensures a * (b * c) == b * (a * c)
  {
  }

  /** The interpolated value: `sum lambda_j * f(j)`. */
  function Combination(coeffs: seq<int>, values: seq<int>): int
    requires |coeffs| == |values|
  {
    if |coeffs| == 0 then 0 else Times(coeffs[0], values[0]) + Combination(coeffs[1..], values[1..])
  }

  lemma CombinationStep(coeffs: seq<int>, values: seq<int>)
    requires |coeffs| == |values| > 0
    ensures Combination(coeffs, values) == coeffs[0] * values[0] + Combination(coeffs[1..], values[1..])
  {
    TimesIs(coeffs[0], values[0]);
  }

  /** Lagrange coefficients and polynomial values for the nodes `js`. */
  ghost predicate Samples(p: pos, cs: seq<int>, js: seq<int>, nodes: seq<int>, coeffs: seq<int>, values: seq<int>) {
    && |coeffs| == |values| == |js|
    && forall i :: 0 <= i < |js| ==> IsLambda(p, coeffs[i], js[i], nodes) && Cong(p, values[i], PolyVal(cs, js[i]))
  }

  /** The part of the sum over `[0] + nodes` that belongs to the nodes, scaled. */
  lemma {:induction false} ScaledSum(p: pos, cs: seq<int>, js: seq<int>, nodes: seq<int>, coeffs: seq<int>,
                                     values: seq<int>)
    requires IsPrime(p) && Distinct(p, nodes) && Apart(p, 0, nodes)
    requires forall j :: j in js ==> j in nodes
    requires Samples(p, cs, js, nodes, coeffs, values)
    ensures |coeffs| == |values| == |js|
    ensures Cong(p, NegProduct(nodes) * Sum(p, cs, js, [0] + nodes), -Combination(coeffs, values))
  {
    hide IsPrime, Cong, Inv, Distinct, Apart, IsLambda, PolyVal, Weight, NegProduct;
    if |js| == 0 {
      CongRefl(p, 0);
    } else {
      var j, v, w := js[0], PolyVal(cs, js[0]), Weight(p, js[0], [0] + nodes);
      forall k | k in js[1..] ensures k in nodes {}
      ScaledSum(p, cs, js[1..], nodes, coeffs[1..], values[1..]);
      TermScaled(p, j, nodes, coeffs[0]);
      SumStep(p, cs, js, [0] + nodes);
      CombinationStep(coeffs, values);
      CombineScaled(p, NegProduct(nodes), v, w, Sum(p, cs, js[1..], [0] + nodes), coeffs[0], values[0],
                    Combination(coeffs[1..], values[1..]));
    }
  }

  lemma CombineScaled(p: pos, m: int, v: int, w: int, rest: int, l: int, v': int, comb: int)
    requires Cong(p, m * w, -l) && Cong(p, v', v) && Cong(p, m * rest, -comb)
    ensures Cong(p, m * (v * w + rest), -(l * v' + comb))
  {
    hide *;
    CongSym(p, v', v);
    CongMul(p, m * w, -l, v, v');
    CongAdd(p, m * w * v, -l * v', m * rest, -comb);
    assert m * (v * w + rest) == m * w * v + m * rest;
    assert -l * v' + -comb == -(l * v' + comb);
  }

  lemma TermScaled(p: pos, j: int, nodes: seq<int>, coeff: int)
    requires IsPrime(p) && Distinct(p, nodes) && Apart(p, 0, nodes)
    requires j in nodes && IsLambda(p, coeff, j, nodes)
    ensures Cong(p, NegProduct(nodes) * Weight(p, j, [0] + nodes), -coeff)
  {
    var w, c := Weight(p, j, nodes), Coefficient(p, j, nodes);
    DistinctSeparated(p, nodes);
    assert forall m :: m in nodes ==> m == j || !Cong(p, m, j);
    ApartMember(p, 0, nodes, j);
    assert ([0] + nodes)[1..] == nodes;
    WeightStep(p, j, [0] + nodes);
    assert Weight(p, j, [0] + nodes) == Inv(p, j - 0) * w;
    hide *;
    if Cong(p, j, 0) { CongSym(p, j, 0); }
    InvIs(p, j);
    CoefficientWeight(p, j, nodes);
    CoefficientIsLambda(p, j, nodes);
    DenominatorIsUnit(p, j, nodes);
    LambdaUnique(p, j, nodes, c, coeff);
    assert j - 0 == j;
    FinishTerm(p, NegProduct(nodes), Inv(p, j), w, j, c, coeff);
  }

  lemma FinishTerm(p: pos, n: int, inv: int, w: int, j: int, c: int, l: int)
    requires n * w == (0 - j) * c && Cong(p, j * inv, 1) && Cong(p, c, l)
    ensures Cong(p, n * (inv * w), -l)
  {
    hide *;
    CongMul(p, j * inv, 1, c, l);
    CongNeg(p, j * inv * c, 1 * l);
    FinishAlgebra(n, inv, w, j, c);
  }

  lemma FinishAlgebra(n: int, inv: int, w: int, j: int, c: int)
    requires n * w == (0 - j) * c
    ensures n * (inv * w) == -(j * inv * c)
  {
    assert n * (inv * w) == inv * (n * w);
    assert inv * ((0 - j) * c) == -(j * inv * c);
  }

  lemma LambdaUnique(p: pos, j: int, nodes: seq<int>, a: int, b: int)
    requires IsPrime(p) && !Cong(p, Denominator(j, nodes), 0)
    requires IsLambda(p, a, j, nodes) && IsLambda(p, b, j, nodes)
    ensures Cong(p, a, b)
  {
    var d, n := Denominator(j, nodes), Numerator(j, nodes);
    LambdaMeans(p, a, j, nodes);
    LambdaMeans(p, b, j, nodes);
    hide *;
    CongSym(p, b * d, n);
    CongTrans(p, a * d, n, b * d);
    Cancel(p, a, b, d);
  }

  lemma {:induction false} NegProductTimesWeight(p: pos, js: seq<int>)
    requires IsPrime(p) && Apart(p, 0, js)
    ensures Cong(p, NegProduct(js) * Weight(p, 0, js), 1)
  {
    hide IsPrime, Cong, Inv, Apart;
    if |js| == 0 {
      CongRefl(p, 1);
    } else {
      ApartTail(p, 0, js);
      NegProductTimesWeight(p, js[1..]);
      NegStep(js);
      WeightStep(p, 0, js);
      DiffIsUnit(p, 0, js[0]);
      InvIs(p, 0 - js[0]);
      var m, n, w, inv := 0 - js[0], NegProduct(js[1..]), Weight(p, 0, js[1..]), Inv(p, 0 - js[0]);
      CongRefl(p, 0);
      CongMul(p, m * inv, 1, n * w, 1);
      Regroup(m, n, inv, w);
    }
  }

  lemma ApartTail(p: pos, x: int, js: seq<int>)
    requires |js| > 0 && Apart(p, x, js)
    ensures !Cong(p, x, js[0]) && Apart(p, x, js[1..]) && js[0] != x
  {
    CongRefl(p, x);
    hide Cong;
  }

  /** By how much the interpolated value misses the constant term. */
  function Miss(cs: seq<int>, nodes: seq<int>): int {
    Times(NegProduct(nodes), Divided(cs, [0] + nodes))
  }

  lemma MissUnfold(cs: seq<int>, nodes: seq<int>)
    ensures Miss(cs, nodes) == NegProduct(nodes) * Divided(cs, [0] + nodes)
  {
    TimesIs(NegProduct(nodes), Divided(cs, [0] + nodes));
  }

  /** Lagrange interpolation at zero, and how it goes wrong.  For distinct nonzero nodes
      and any polynomial the combination of its values misses the constant term by its
      divided difference over zero and the nodes, times the product of the negated nodes. */
  lemma Interpolation(p: pos, cs: seq<int>, nodes: seq<int>, coeffs: seq<int>, values: seq<int>)
    requires IsPrime(p) && Distinct(p, nodes) && Apart(p, 0, nodes)
    requires |coeffs| == |values| && Samples(p, cs, nodes, nodes, coeffs, values)
    ensures Cong(p, PolyVal(cs, 0) - Combination(coeffs, values), Miss(cs, nodes))
  {
    hide *;
    var all := [0] + nodes;
    UnfoldAtZero(p, cs, nodes);
    var n, w, f0, rest := NegProduct(nodes), Weight(p, 0, nodes), PolyVal(cs, 0), Sum(p, cs, nodes, all);
    DistinctCons(p, 0, nodes);
    DividedDifference(p, cs, all);
    NegProductTimesWeight(p, nodes);
    ScaledSum(p, cs, nodes, nodes, coeffs, values);
    FinishInterpolation(p, n, f0, w, rest, Combination(coeffs, values), Divided(cs, all));
    MissUnfold(cs, nodes);
  }

  lemma UnfoldAtZero(p: pos, cs: seq<int>, nodes: seq<int>)
    requires IsPrime(p)
    ensures Sum(p, cs, [0] + nodes, [0] + nodes) ==
      PolyVal(cs, 0) * (1 * Weight(p, 0, nodes)) + Sum(p, cs, nodes, [0] + nodes)
  {
    hide IsPrime, PolyVal;
    assert ([0] + nodes)[1..] == nodes;
    SumStep(p, cs, [0] + nodes, [0] + nodes);
    WeightStep(p, 0, [0] + nodes);
  }

  lemma FinishInterpolation(p: pos, n: int, f0: int, w: int, rest: int, comb: int, lead: int)
    requires Cong(p, f0 * (1 * w) + rest, lead) && Cong(p, n * w, 1) && Cong(p, n * rest, -comb)
    ensures Cong(p, f0 - comb, n * lead)
  {
    hide *;
    CongRefl(p, n);
    CongMul(p, n, n, f0 * (1 * w) + rest, lead);
    CongRefl(p, f0);
    CongMul(p, f0, f0, n * w, 1);
    CongAdd(p, f0 * (n * w), f0 * 1, n * rest, -comb);
    CongSym(p, f0 * (n * w) + n * rest, f0 * 1 + -comb);
    assert n * (f0 * (1 * w) + rest) == f0 * (n * w) + n * rest;
    assert f0 * 1 + -comb == f0 - comb;
    CongTrans(p, f0 - comb, f0 * (n * w) + n * rest, n * lead);
  }

  /** The constant term is recovered exactly when the divided difference is zero. */
  lemma RecoveredIff(p: pos, cs: seq<int>, nodes: seq<int>, coeffs: seq<int>, values: seq<int>)
    requires IsPrime(p) && Distinct(p, nodes) && Apart(p, 0, nodes)
    requires |coeffs| == |values| && Samples(p, cs, nodes, nodes, coeffs, values)
    ensures Cong(p, Combination(coeffs, values), PolyVal(cs, 0)) <==> Cong(p, Divided(cs, [0] + nodes), 0)
  {
    Interpolation(p, cs, nodes, coeffs, values);
    NegProductIsUnit(p, nodes);
    hide *;
    MissUnfold(cs, nodes);
    var f0, comb, n, d := PolyVal(cs, 0), Combination(coeffs, values), NegProduct(nodes), Divided(cs, [0] + nodes);
    if Cong(p, comb, f0) {
      CongSym(p, comb, f0);
      DiffZero(p, f0, comb);
      CongSym(p, f0 - comb, n * d);
      CongTrans(p, n * d, f0 - comb, 0);
      NoZeroDivisors(p, n, d);
    }
    if Cong(p, d, 0) {
      CongRefl(p, n);
      CongMul(p, n, n, d, 0);
      assert n * 0 == 0;
      CongTrans(p, f0 - comb, n * d, 0);
      DiffZero(p, f0, comb);
      CongSym(p, f0, comb);
    }
  }

  /** Enough nodes recover the constant term; one node short, it is recovered exactly when
      the extra coefficient is zero. */
  lemma DividedOverNodes(cs: seq<int>, nodes: seq<int>)
    ensures |cs| <= |nodes| ==> Divided(cs, [0] + nodes) == 0
    ensures |cs| == |nodes| + 1 ==> Divided(cs, [0] + nodes) == cs[|nodes|]
  {
    hide Divided;
    if |cs| <= |nodes| + 1 { DividedLead(cs, [0] + nodes); }
  }

  lemma DiffZero(p: pos, a: int, b: int)
    ensures Cong(p, a - b, 0) <==> Cong(p, a, b)
  {
  }

  lemma {:induction false} NegProductIsUnit(p: pos, js: seq<int>)
    requires IsPrime(p) && Apart(p, 0, js)
    ensures !Cong(p, NegProduct(js), 0)
  {
    hide IsPrime, Cong, Apart;
    if |js| == 0 {
      OneIsUnit(p);
    } else {
      ApartTail(p, 0, js);
      NegProductIsUnit(p, js[1..]);
      NegStep(js);
      DiffIsUnit(p, 0, js[0]);
      ProductIsUnit(p, 0 - js[0], NegProduct(js[1..]));
    }
  }
}
