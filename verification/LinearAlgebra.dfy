/** Sums, dot products and row operations over the field, and Cauchy matrices. */
module LinearAlgebra {
  import opened GaloisField

  type Vector = seq<Element>

  // ------------------------------------------------------------------- sums

  function Sum(s: Vector): Element {
    if s == [] then ZERO else Add(Sum(s[..|s| - 1]), s[|s| - 1])
  }

  lemma {:induction false} SumAdds(s: Vector, t: Vector, u: Vector)
    requires |s| == |t| == |u| && forall i :: 0 <= i < |u| ==> u[i] == Add(s[i], t[i])
    ensures Sum(u) == Add(Sum(s), Sum(t))
  {
    if u == [] {
      AddZero(ZERO);
    } else {
      var n := |u| - 1;
      SumAdds(s[..n], t[..n], u[..n]);
      AddExchange(Sum(s[..n]), s[n], Sum(t[..n]), t[n]);
    }
  }

  lemma {:induction false} SumScales(a: Element, s: Vector, t: Vector)
    requires |s| == |t| && forall i :: 0 <= i < |t| ==> t[i] == Mul(a, s[i])
    ensures Sum(t) == Mul(a, Sum(s))
  {
    if t != [] {
      var n := |t| - 1;
      SumScales(a, s[..n], t[..n]);
      MulAddsRight(a, Sum(s[..n]), s[n]);
    }
  }

  ghost predicate IsZero(s: Vector) {
    forall i :: 0 <= i < |s| ==> s[i] == ZERO
  }

  lemma {:induction false} SumOfZeros(s: Vector)
    requires IsZero(s)
    ensures Sum(s) == ZERO
  {
    if s != [] {
      SumOfZeros(s[..|s| - 1]);
      AddZero(ZERO);
    }
  }

  /** A sum with a single term that counts. */
  lemma {:induction false} SumOfOne(s: Vector, k: nat)
    requires k < |s| && forall i :: 0 <= i < |s| && i != k ==> s[i] == ZERO
    ensures Sum(s) == s[k]
  {
    var n := |s| - 1;
    AddZero(s[k]);
    if k == n {
      SumOfZeros(s[..n]);
    } else {
      SumOfOne(s[..n], k);
    }
  }

  // ----------------------------------------------------------- dot products

  function Products(r: Vector, v: Vector): (p: Vector)
    requires |r| == |v|
    ensures |p| == |r| && forall i :: 0 <= i < |p| ==> p[i] == Mul(r[i], v[i])
  {
    seq(|r|, i requires 0 <= i < |r| => Mul(r[i], v[i]))
  }

  /** The dot product of vectors of one length; vectors of different lengths have none. */
  function Dot(r: Vector, v: Vector): Element {
    if |r| == |v| then Sum(Products(r, v)) else ZERO
  }

  lemma DotAdds(r: Vector, s: Vector, t: Vector, v: Vector)
    requires |r| == |s| == |t| == |v| && forall i :: 0 <= i < |t| ==> t[i] == Add(r[i], s[i])
    ensures Dot(t, v) == Add(Dot(r, v), Dot(s, v))
  {
    forall i | 0 <= i < |t|
      ensures Products(t, v)[i] == Add(Products(r, v)[i], Products(s, v)[i])
    {
      MulAddsLeft(r[i], s[i], v[i]);
    }
    SumAdds(Products(r, v), Products(s, v), Products(t, v));
  }

  lemma DotScales(a: Element, r: Vector, t: Vector, v: Vector)
    requires |r| == |t| == |v| && forall i :: 0 <= i < |t| ==> t[i] == Mul(a, r[i])
    ensures Dot(t, v) == Mul(a, Dot(r, v))
  {
    forall i | 0 <= i < |t|
      ensures Products(t, v)[i] == Mul(a, Products(r, v)[i])
    {
      MulAssociates(a, r[i], v[i]);
    }
    SumScales(a, Products(r, v), Products(t, v));
  }

  function Unit(n: nat, k: nat): (r: Vector)
    ensures |r| == n && forall i :: 0 <= i < n ==> r[i] == if i == k then ONE else ZERO
  {
    seq(n, i => if i == k then ONE else ZERO)
  }

  lemma DotUnit(n: nat, k: nat, v: Vector)
    requires k < n == |v|
    ensures Dot(Unit(n, k), v) == v[k]
  {
    forall i | 0 <= i < n
      ensures Products(Unit(n, k), v)[i] == if i == k then v[k] else ZERO
    {
      MulOneLeft(v[i]);
      MulZeroLeft(v[i]);
    }
    SumOfOne(Products(Unit(n, k), v), k);
  }

  lemma DotZero(r: Vector, v: Vector)
    requires |r| == |v| && IsZero(v)
    ensures Dot(r, v) == ZERO
  {
    SumOfZeros(Products(r, v));
  }

  // -------------------------------------------------------- partial fractions

  lemma MulSwap(a: Element, b: Element, c: Element)
    ensures Mul(a, Mul(b, c)) == Mul(b, Mul(a, c))
  {
    MulAssociates(a, b, c);
    MulCommutes(a, b);
    MulAssociates(b, a, c);
  }

  lemma InverseCancels(a: Element, b: Element)
    requires a != ZERO
    ensures Mul(a, Mul(Inverse(a), b)) == b
    ensures Mul(Inverse(a), Mul(a, b)) == b
  {
    InverseWorks(a);
    MulAssociates(a, Inverse(a), b);
    MulSwap(Inverse(a), a, b);
    MulOneLeft(b);
  }

  lemma PartialFractions(p: Element, q: Element, v: Element)
    requires p != ZERO && q != ZERO
    ensures Mul(Add(p, q), Mul(Inverse(p), Mul(Inverse(q), v))) == Add(Mul(Inverse(p), v), Mul(Inverse(q), v))
  {
    var ip, iq := Inverse(p), Inverse(q);
    MulAddsLeft(p, q, Mul(ip, Mul(iq, v)));
    InverseCancels(p, Mul(iq, v));
    MulSwap(ip, iq, v);
    InverseCancels(q, Mul(ip, v));
    AddCommutes(Mul(ip, v), Mul(iq, v));
  }

  /** A denominator p and a factor p + s: one part cancels. */
  lemma CancelPart(p: Element, s: Element, d: Element)
    requires p != ZERO
    ensures Mul(Inverse(p), Mul(d, Add(p, s))) == Add(d, Mul(s, Mul(Inverse(p), d)))
  {
    var ip := Inverse(p);
    MulAddsRight(d, p, s);
    MulAddsRight(ip, Mul(d, p), Mul(d, s));
    MulCommutes(d, p);
    InverseCancels(p, d);
    MulCommutes(d, s);
    MulSwap(ip, s, d);
  }

  // ---------------------------------------------------------- Cauchy matrices

  ghost predicate Distinct(ys: Vector) {
    forall i, j :: 0 <= i < j < |ys| ==> ys[i] != ys[j]
  }

  /** The row of x: the inverse of its distance to every y. */
  function CauchyRow(ys: Vector, x: Element): (r: Vector)
    ensures |r| == |ys| && forall j :: 0 <= j < |r| ==> r[j] == Inverse(Add(x, ys[j]))
  {
    seq(|ys|, j requires 0 <= j < |ys| => Inverse(Add(x, ys[j])))
  }

  /** Each entry weighted by the distance of its y to the chosen one. */
  function Weighted(ys: Vector, d: Vector, m: nat): (e: Vector)
    requires |d| == |ys| && m < |ys|
    ensures |e| == |d| && forall j :: 0 <= j < |e| ==> e[j] == Mul(d[j], Add(ys[j], ys[m]))
  {
    seq(|d|, j requires 0 <= j < |d| => Mul(d[j], Add(ys[j], ys[m])))
  }

  lemma Distance(x: Element, z: Element, y: Element)
    ensures Add(Add(x, y), Add(z, y)) == Add(x, z)
  {
    AddExchange(x, y, z, y);
    AddCancels(y, y);
    AddZero(Add(x, z));
  }

  lemma QuotientTerm(x: Element, z: Element, y: Element, v: Element)
    requires x != y && z != y
    ensures Mul(Add(x, z), Mul(Inverse(Add(x, y)), Mul(Inverse(Add(z, y)), v))) ==
            Add(Mul(Inverse(Add(x, y)), v), Mul(Inverse(Add(z, y)), v))
  {
    AddCancels(x, y);
    AddCancels(z, y);
    Distance(x, z, y);
    PartialFractions(Add(x, y), Add(z, y), v);
  }

  lemma WeightedTerm(x: Element, y: Element, y': Element, d: Element)
    requires x != y
    ensures Mul(Inverse(Add(x, y)), Mul(d, Add(y, y'))) == Add(d, Mul(Add(x, y'), Mul(Inverse(Add(x, y)), d)))
  {
    AddCancels(x, y);
    Distance(y, y', x);
    AddCommutes(y, x);
    AddCommutes(y', x);
    CancelPart(Add(x, y), Add(x, y'), d);
  }

  /** The terms, scaled by something other than zero, are sums of terms of two vanishing sums. */
  lemma ScaledVanishes(gap: Element, terms: Vector, a: Vector, b: Vector)
    requires gap != ZERO && |terms| == |a| == |b| && Sum(a) == ZERO && Sum(b) == ZERO
    requires forall j :: 0 <= j < |terms| ==> Mul(gap, terms[j]) == Add(a[j], b[j])
    ensures Sum(terms) == ZERO
  {
    var scaled := seq(|terms|, j requires 0 <= j < |terms| => Mul(gap, terms[j]));
    SumAdds(a, b, scaled);
    SumScales(gap, terms, scaled);
    AddZero(ZERO);
    MulVanishes(gap, Sum(terms));
  }

  /** The terms are sums of terms of a vanishing sum and of multiples of another. */
  lemma CombinedVanishes(gap: Element, terms: Vector, a: Vector, b: Vector)
    requires |terms| == |a| == |b| && Sum(a) == ZERO && Sum(b) == ZERO
    requires forall j :: 0 <= j < |terms| ==> terms[j] == Add(a[j], Mul(gap, b[j]))
    ensures Sum(terms) == ZERO
  {
    var scaled := seq(|b|, j requires 0 <= j < |b| => Mul(gap, b[j]));
    SumAdds(a, scaled, terms);
    SumScales(gap, b, scaled);
    AddZero(ZERO);
  }

  /**
    If v is orthogonal to the rows of x and z, then the products of v with the
    row of z are orthogonal to the row of x.
    */
  lemma CauchyQuotient(ys: Vector, v: Vector, x: Element, z: Element)
    requires |v| == |ys| && x != z && x !in ys && z !in ys
    requires Dot(CauchyRow(ys, x), v) == ZERO && Dot(CauchyRow(ys, z), v) == ZERO
    ensures Dot(CauchyRow(ys, x), Products(CauchyRow(ys, z), v)) == ZERO
  {
    var rx, rz := CauchyRow(ys, x), CauchyRow(ys, z);
    var a, b, terms := Products(rx, v), Products(rz, v), Products(rx, Products(rz, v));
    forall j | 0 <= j < |ys|
      ensures Mul(Add(x, z), terms[j]) == Add(a[j], b[j])
    {
      QuotientTerm(x, z, ys[j], v[j]);
    }
    AddCancels(x, z);
    ScaledVanishes(Add(x, z), terms, a, b);
  }

  /** Weighting by the distance to one y keeps d orthogonal to the row of x, when d sums to zero. */
  lemma CauchyWeighted(ys: Vector, d: Vector, m: nat, x: Element)
    requires |d| == |ys| && m < |ys| && x !in ys
    requires Sum(d) == ZERO && Dot(CauchyRow(ys, x), d) == ZERO
    ensures Dot(CauchyRow(ys, x), Weighted(ys, d, m)) == ZERO
  {
    var rx, e := CauchyRow(ys, x), Weighted(ys, d, m);
    forall j | 0 <= j < |ys|
      ensures Products(rx, e)[j] == Add(d[j], Mul(Add(x, ys[m]), Products(rx, d)[j]))
    {
      WeightedTerm(x, ys[j], ys[m], d[j]);
    }
    CombinedVanishes(Add(x, ys[m]), Products(rx, e), d, Products(rx, d));
  }

  /** Dividing and weighting clears the entry of the chosen y and fills no other. */
  lemma CauchySupport(ys: Vector, v: Vector, m: nat, z: Element, j: nat)
    requires |v| == |ys| && m < |ys| && j < |ys| && (v[j] == ZERO || j == m)
    ensures Weighted(ys, Products(CauchyRow(ys, z), v), m)[j] == ZERO
  {
    AddCancels(ys[m], ys[m]);
    MulZeroLeft(Add(ys[j], ys[m]));
  }

  /** What vanishes after dividing and weighting was zero before. */
  lemma CauchyBack(ys: Vector, v: Vector, m: nat, z: Element)
    requires |v| == |ys| && Distinct(ys) && m < |ys| && z !in ys
    requires Sum(Products(CauchyRow(ys, z), v)) == ZERO
    requires IsZero(Weighted(ys, Products(CauchyRow(ys, z), v), m))
    ensures IsZero(v)
  {
    var d := Products(CauchyRow(ys, z), v);
    forall j | 0 <= j < |ys| && j != m
      ensures d[j] == ZERO
    {
      assert Weighted(ys, d, m)[j] == ZERO;
      AddCancels(ys[j], ys[m]);
      MulVanishes(d[j], Add(ys[j], ys[m]));
    }
    SumOfOne(d, m);
    forall j | 0 <= j < |ys|
      ensures v[j] == ZERO
    {
      assert d[j] == ZERO;
      AddCancels(z, ys[j]);
      InverseNonZero(Add(z, ys[j]));
      MulVanishes(Inverse(Add(z, ys[j])), v[j]);
    }
  }

  ghost predicate Orthogonal(ys: Vector, v: Vector, x: Element)
    requires |v| == |ys|
  {
    x !in ys && Dot(CauchyRow(ys, x), v) == ZERO
  }

  /** All entries outside the support are zero. */
  ghost predicate Supported(v: Vector, support: set<nat>) {
    && (forall j :: j in support ==> j < |v|)
    && (forall j :: 0 <= j < |v| && j !in support ==> v[j] == ZERO)
  }

  lemma PickBoth<A, B>(s: set<A>, t: set<B>) returns (a: A, b: B)
    requires s != {} && |s| <= |t|
    ensures a in s && b in t && |s - {a}| < |s| && |s - {a}| <= |t - {b}|
  {
    a :| a in s;
    assert t != {};
    b :| b in t;
  }

  /** One row and one entry are used up. */
  lemma CauchyStep(ys: Vector, v: Vector, m: nat, z: Element) returns (e: Vector)
    requires |v| == |ys| && Distinct(ys) && m < |ys| && Orthogonal(ys, v, z)
    ensures |e| == |ys|
    ensures forall x :: x != z && Orthogonal(ys, v, x) ==> Orthogonal(ys, e, x)
    ensures forall j :: 0 <= j < |e| && (v[j] == ZERO || j == m) ==> e[j] == ZERO
    ensures IsZero(e) ==> IsZero(v)
  {
    var d := Products(CauchyRow(ys, z), v);
    e := Weighted(ys, d, m);
    forall x | x != z && Orthogonal(ys, v, x)
      ensures Orthogonal(ys, e, x)
    {
      CauchyQuotient(ys, v, x, z);
      CauchyWeighted(ys, d, m, x);
    }
    forall j | 0 <= j < |e| && (v[j] == ZERO || j == m)
      ensures e[j] == ZERO
    {
      CauchySupport(ys, v, m, z, j);
    }
    if IsZero(e) {
      CauchyBack(ys, v, m, z);
    }
  }

  ghost predicate AllOrthogonal(ys: Vector, v: Vector, xs: set<Element>)
    requires |v| == |ys|
  {
    forall x :: x in xs ==> Orthogonal(ys, v, x)
  }

  lemma CauchyReduces(ys: Vector, v: Vector, support: set<nat>, xs: set<Element>, m: nat, z: Element)
    returns (e: Vector)
    requires |v| == |ys| && Distinct(ys) && Supported(v, support) && AllOrthogonal(ys, v, xs)
    requires m in support && z in xs
    ensures |e| == |ys| && Supported(e, support - {m}) && AllOrthogonal(ys, e, xs - {z})
    ensures IsZero(e) ==> IsZero(v)
  {
    e := CauchyStep(ys, v, m, z);
  }

  /**
    Every square part of a Cauchy matrix is regular: a vector with at most as
    many non-zero entries as there are rows is orthogonal to all of them only
    if it is zero.
    */
  lemma {:induction false} CauchyKernel(ys: Vector, v: Vector, support: set<nat>, xs: set<Element>)
    requires |v| == |ys| && Distinct(ys) && Supported(v, support) && |support| <= |xs|
    requires AllOrthogonal(ys, v, xs)
    ensures IsZero(v)
    decreases |support|
  {
    if support != {} {
      var m, z := PickBoth(support, xs);
      var e := CauchyReduces(ys, v, support, xs, m, z);
      CauchyKernel(ys, e, support - {m}, xs - {z});
    }
  }
}
