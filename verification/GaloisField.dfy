/**
  Arithmetic of the field with 256 elements that the erasure code works in:
  bytes as polynomials over the bits, modulo x^8 + x^4 + x^3 + x^2 + 1.
  */
module GaloisField {

  /** A field element: a byte as its eight bits, lowest first. */
  datatype Element = Element(b0: bool, b1: bool, b2: bool, b3: bool, b4: bool, b5: bool, b6: bool, b7: bool)

  const ZERO := Element(false, false, false, false, false, false, false, false)
  const ONE := Element(true, false, false, false, false, false, false, false)
  const REDUCTION := Element(true, false, true, true, true, false, false, false)

  /** Exclusive or. */
  function Add(a: Element, b: Element): Element {
    Element(a.b0 != b.b0, a.b1 != b.b1, a.b2 != b.b2, a.b3 != b.b3,
         a.b4 != b.b4, a.b5 != b.b5, a.b6 != b.b6, a.b7 != b.b7)
  }

  function ShiftUp(a: Element): Element {
    Element(false, a.b0, a.b1, a.b2, a.b3, a.b4, a.b5, a.b6)
  }

  function ShiftDown(a: Element): Element {
    Element(a.b1, a.b2, a.b3, a.b4, a.b5, a.b6, a.b7, false)
  }

  function Term(a: Element, bit: bool): Element {
    if bit then a else ZERO
  }

  /** Multiplication by x: a shift, reduced when a bit falls out. */
  function Double(a: Element): Element {
    Element(a.b7, a.b0, a.b1 != a.b7, a.b2 != a.b7, a.b3 != a.b7, a.b4, a.b5, a.b6)
  }

  /** The number of bits up to the highest one set. */
  function Width(a: Element): nat {
    if a.b7 then 8 else if a.b6 then 7 else if a.b5 then 6 else if a.b4 then 5
    else if a.b3 then 4 else if a.b2 then 3 else if a.b1 then 2 else if a.b0 then 1 else 0
  }

  /** The product, bit by bit of the second factor. */
  function Mul(a: Element, b: Element): Element
    decreases Width(b)
  {
    if b == ZERO then ZERO else Add(Term(a, b.b0), Mul(Double(a), ShiftDown(b)))
  }

  // --------------------------------------------------------------- addition

  lemma AddCommutes(a: Element, b: Element)
    ensures Add(a, b) == Add(b, a)
  {
  }

  lemma AddAssociates(a: Element, b: Element, c: Element)
    ensures Add(a, Add(b, c)) == Add(Add(a, b), c)
  {
  }

  lemma AddZero(a: Element)
    ensures Add(a, ZERO) == a && Add(ZERO, a) == a
  {
  }

  lemma AddCancels(a: Element, b: Element)
    ensures Add(a, b) == ZERO <==> a == b
  {
  }

  lemma AddExchange(a: Element, b: Element, c: Element, d: Element)
    ensures Add(Add(a, b), Add(c, d)) == Add(Add(a, c), Add(b, d))
  {
  }

  lemma DoubleAdds(a: Element, b: Element)
    ensures Double(Add(a, b)) == Add(Double(a), Double(b))
  {
  }

  lemma DoubleShifts(a: Element)
    ensures Double(a) == Add(ShiftUp(a), Term(REDUCTION, a.b7))
  {
  }

  lemma TermAdds(a: Element, b: Element, p: bool, q: bool)
    ensures Term(a, p != q) == Add(Term(a, p), Term(a, q))
    ensures Term(Add(a, b), p) == Add(Term(a, p), Term(b, p))
    ensures Double(Term(a, p)) == Term(Double(a), p)
  {
  }

  // --------------------------------------------------------- multiplication

  lemma MulUnfold(a: Element, b: Element)
    ensures Mul(a, b) == Add(Term(a, b.b0), Mul(Double(a), ShiftDown(b)))
  {
    if b == ZERO {
      assert ShiftDown(b) == ZERO;
    }
  }

  lemma ShiftDownAdds(b: Element, c: Element)
    ensures ShiftDown(Add(b, c)) == Add(ShiftDown(b), ShiftDown(c))
  {
  }

  lemma MulAddsStep(a: Element, b: Element, c: Element)
    requires var d := Double(a);
             Mul(d, Add(ShiftDown(b), ShiftDown(c))) == Add(Mul(d, ShiftDown(b)), Mul(d, ShiftDown(c)))
    ensures Mul(a, Add(b, c)) == Add(Mul(a, b), Mul(a, c))
  {
    MulUnfold(a, b);
    MulUnfold(a, c);
    MulUnfold(a, Add(b, c));
    ShiftDownAdds(b, c);
    TermAdds(a, a, b.b0, c.b0);
    AddExchange(Term(a, b.b0), Term(a, c.b0), Mul(Double(a), ShiftDown(b)), Mul(Double(a), ShiftDown(c)));
  }

  lemma {:induction false} MulAddsRight(a: Element, b: Element, c: Element)
    ensures Mul(a, Add(b, c)) == Add(Mul(a, b), Mul(a, c))
    decreases Width(b) + Width(c)
  {
    if b == ZERO {
      AddZero(c);
      AddZero(Mul(a, c));
    } else {
      MulAddsRight(Double(a), ShiftDown(b), ShiftDown(c));
      MulAddsStep(a, b, c);
    }
  }

  lemma {:induction false} MulAddsLeft(a: Element, b: Element, c: Element)
    ensures Mul(Add(a, b), c) == Add(Mul(a, c), Mul(b, c))
    decreases Width(c)
  {
    if c != ZERO {
      var rest := ShiftDown(c);
      DoubleAdds(a, b);
      MulAddsLeft(Double(a), Double(b), rest);
      TermAdds(a, b, c.b0, c.b0);
      AddExchange(Term(a, c.b0), Term(b, c.b0), Mul(Double(a), rest), Mul(Double(b), rest));
    }
  }

  lemma {:induction false} DoubleOfMul(a: Element, b: Element)
    ensures Double(Mul(a, b)) == Mul(Double(a), b)
    decreases Width(b)
  {
    if b != ZERO {
      var rest := ShiftDown(b);
      DoubleOfMul(Double(a), rest);
      DoubleAdds(Term(a, b.b0), Mul(Double(a), rest));
      TermAdds(a, a, b.b0, b.b0);
    }
  }

  lemma {:induction false} MulZeroLeft(b: Element)
    ensures Mul(ZERO, b) == ZERO
    decreases Width(b)
  {
    if b != ZERO {
      assert Double(ZERO) == ZERO;
      MulZeroLeft(ShiftDown(b));
    }
  }

  lemma MulOneRight(a: Element)
    ensures Mul(a, ONE) == a
  {
    assert ShiftDown(ONE) == ZERO;
    AddZero(a);
  }

  /** Multiplication by a power of x is repeated doubling. */
  lemma MulShiftUp(a: Element, b: Element)
    requires !b.b7
    ensures Mul(a, ShiftUp(b)) == Mul(Double(a), b)
  {
    MulUnfold(a, ShiftUp(b));
    assert ShiftDown(ShiftUp(b)) == b;
    AddZero(Mul(Double(a), b));
  }

  function Low(b: Element): Element {
    b.(b7 := false)
  }

  const TOP := Element(false, false, false, false, false, false, false, true)

  lemma MulTop(a: Element)
    ensures Mul(a, TOP) == Double(Double(Double(Double(Double(Double(Double(a)))))))
  {
    var x1, x2, x3 := ShiftUp(ONE), ShiftUp(ShiftUp(ONE)), ShiftUp(ShiftUp(ShiftUp(ONE)));
    var x4, x5, x6 := ShiftUp(x3), ShiftUp(ShiftUp(x3)), ShiftUp(ShiftUp(ShiftUp(x3)));
    var a1, a2, a3 := Double(a), Double(Double(a)), Double(Double(Double(a)));
    var a4, a5, a6 := Double(a3), Double(Double(a3)), Double(Double(Double(a3)));
    MulShiftUp(a, x6);
    MulShiftUp(a1, x5);
    MulShiftUp(a2, x4);
    MulShiftUp(a3, x3);
    MulShiftUp(a4, x2);
    MulShiftUp(a5, x1);
    MulShiftUp(a6, ONE);
    MulOneRight(Double(a6));
  }

  lemma MulReduction(a: Element)
    ensures Mul(a, REDUCTION) ==
            Add(a, Add(Double(Double(a)), Add(Double(Double(Double(a))), Double(Double(Double(Double(a)))))))
  {
    var a1, a2, a3, a4 := Double(a), Double(Double(a)), Double(Double(Double(a))), Double(Double(Double(Double(a))));
    MulReductionTail(a1, a2, a3, a4);
    MulUnfold(a, REDUCTION);
  }

  lemma MulReductionTail(a1: Element, a2: Element, a3: Element, a4: Element)
    requires a2 == Double(a1) && a3 == Double(a2) && a4 == Double(a3)
    ensures Mul(a1, ShiftDown(REDUCTION)) == Add(a2, Add(a3, a4))
  {
    var r1 := ShiftDown(REDUCTION);
    MulUnfold(a1, r1);
    MulUnfold(a2, ShiftDown(r1));
    MulUnfold(a3, ShiftDown(ShiftDown(r1)));
    assert ShiftDown(ShiftDown(ShiftDown(r1))) == ONE;
    MulOneRight(a4);
    AddZero(Mul(a2, ShiftDown(r1)));
  }

  lemma FourDoublings(a: Element)
    ensures Double(Double(a)) ==
            Element(a.b6, a.b7, (a.b0 != a.b6), (a.b1 != (a.b6 != a.b7)), (a.b2 != (a.b6 != a.b7)), (a.b3 != a.b7), a.b4, a.b5)
    ensures Double(Double(Double(Double(a)))) ==
            Element(a.b4, a.b5, (a.b4 != a.b6), (a.b4 != (a.b5 != a.b7)), (a.b0 != (a.b4 != (a.b5 != a.b6))), (a.b1 != (a.b5 != (a.b6 != a.b7))), (a.b2 != (a.b6 != a.b7)), (a.b3 != a.b7))
  {
  }

  /** The reduction is the value of x^8. */
  lemma EightDoublings(a: Element)
    ensures Double(Double(Double(Double(Double(Double(Double(Double(a)))))))) ==
            Add(a, Add(Double(Double(a)), Add(Double(Double(Double(a))), Double(Double(Double(Double(a)))))))
  {
    FourDoublings(a);
    FourDoublings(Double(Double(Double(Double(a)))));
  }

  lemma MulLow(a: Element, b: Element)
    ensures Mul(a, b) == Add(Mul(a, Low(b)), Term(Mul(a, TOP), b.b7))
  {
    assert b == Add(Low(b), Term(TOP, b.b7));
    MulAddsRight(a, Low(b), Term(TOP, b.b7));
  }

  /** Doubling may be moved from one factor to the other. */
  lemma MulDouble(a: Element, b: Element)
    ensures Mul(a, Double(b)) == Mul(Double(a), b)
  {
    DoubleShifts(b);
    MulAddsRight(a, ShiftUp(b), Term(REDUCTION, b.b7));
    assert ShiftUp(b) == ShiftUp(Low(b));
    MulShiftUp(a, Low(b));
    MulLow(Double(a), b);
    MulTop(Double(a));
    MulReduction(a);
    EightDoublings(a);
  }

  lemma Halves(a: Element)
    ensures a == Add(Term(ONE, a.b0), Double(ShiftDown(a)))
  {
  }

  lemma {:induction false} MulOneLeft(b: Element)
    ensures Mul(ONE, b) == b
    decreases Width(b)
  {
    if b != ZERO {
      MulOneLeft(ShiftDown(b));
      DoubleOfMul(ONE, ShiftDown(b));
      Halves(b);
    }
  }

  lemma {:induction false} MulCommutes(a: Element, b: Element)
    ensures Mul(a, b) == Mul(b, a)
    decreases Width(b)
  {
    if b == ZERO {
      MulZeroLeft(a);
    } else {
      var rest := ShiftDown(b);
      MulCommutes(a, rest);
      Halves(b);
      MulAddsLeft(Term(ONE, b.b0), Double(rest), a);
      MulOneLeft(a);
      MulZeroLeft(a);
      DoubleOfMul(a, rest);
      DoubleOfMul(rest, a);
    }
  }

  lemma {:induction false} MulAssociates(a: Element, b: Element, c: Element)
    ensures Mul(a, Mul(b, c)) == Mul(Mul(a, b), c)
    decreases Width(c)
  {
    if c != ZERO {
      var rest := ShiftDown(c);
      MulAssociates(a, Double(b), rest);
      MulDouble(a, b);
      DoubleOfMul(a, b);
      MulAddsRight(a, Term(b, c.b0), Mul(Double(b), rest));
    }
  }

  // ---------------------------------------------------------------- squaring

  /** Squaring moves bits; it is linear over them. */
  function Square(a: Element): Element {
    Element(a.b0 != (a.b4 != (a.b6 != a.b7)), a.b7, a.b1 != (a.b4 != (a.b5 != a.b6)), a.b4 != a.b6,
         a.b2 != (a.b4 != (a.b5 != a.b7)), a.b5, a.b3 != (a.b5 != a.b6), a.b6)
  }

  lemma SquareStep(a: Element)
    ensures Square(a) == Add(Term(ONE, a.b0), Double(Double(Square(ShiftDown(a)))))
  {
  }

  lemma MulSelfStep(a: Element)
    ensures Mul(a, a) == Add(Term(ONE, a.b0), Double(Double(Mul(ShiftDown(a), ShiftDown(a)))))
  {
    var one, rest := Term(ONE, a.b0), ShiftDown(a);
    var twice := Double(rest);
    Halves(a);
    MulAddsLeft(one, twice, a);
    MulAddsRight(one, one, twice);
    MulAddsRight(twice, one, twice);
    MulCommutes(one, twice);
    CrossTermsCancel(Mul(one, one), Mul(one, twice), Mul(twice, twice));
    MulOneRight(ONE);
    MulDouble(twice, rest);
    DoubleOfMul(twice, rest);
    DoubleOfMul(rest, rest);
  }

  lemma CrossTermsCancel(a: Element, b: Element, c: Element)
    ensures Add(Add(a, b), Add(b, c)) == Add(a, c)
  {
  }

  lemma {:induction false} SquareIsProduct(a: Element)
    ensures Square(a) == Mul(a, a)
    decreases Width(a)
  {
    if a != ZERO {
      SquareIsProduct(ShiftDown(a));
      SquareStep(a);
      MulSelfStep(a);
    }
  }

  lemma FourSquares(a: Element)
    ensures Square(Square(a)) ==
            Element(a.b0 != (a.b2 != (a.b3 != a.b6)), a.b6, a.b2 != (a.b3 != (a.b4 != (a.b5 != a.b6))), a.b2 != (a.b3 != (a.b4 != (a.b6 != a.b7))), a.b1 != (a.b2 != (a.b5 != a.b7)), a.b5, a.b3 != a.b4, a.b3 != (a.b5 != a.b6))
    ensures Square(Square(Square(Square(a)))) ==
            Element(a.b0 != (a.b2 != (a.b4 != (a.b5 != (a.b6 != a.b7)))), a.b3 != a.b4, a.b1 != (a.b2 != (a.b3 != (a.b4 != a.b5))), a.b1 != (a.b2 != (a.b4 != (a.b5 != a.b6))), a.b2 != (a.b4 != (a.b5 != a.b6)), a.b5, a.b1 != (a.b3 != (a.b4 != (a.b5 != a.b6))), a.b2 != (a.b5 != (a.b6 != a.b7)))
  {
  }

  /** Every element is its own 256th power. */
  lemma EightSquares(a: Element)
    ensures Square(Square(Square(Square(Square(Square(Square(Square(a)))))))) == a
  {
    FourSquares(a);
    FourSquares(Square(Square(Square(Square(a)))));
  }

  lemma SquareFixes(a: Element)
    requires Square(a) == a
    ensures a == ZERO || a == ONE
  {
  }

  lemma SquareOfMul(a: Element, b: Element)
    ensures Square(Mul(a, b)) == Mul(Square(a), Square(b))
  {
    SquareIsProduct(a);
    SquareIsProduct(b);
    SquareIsProduct(Mul(a, b));
    MulAssociates(Mul(a, b), a, b);
    MulAssociates(a, b, a);
    MulCommutes(b, a);
    MulAssociates(a, a, b);
    MulAssociates(Mul(a, a), b, b);
  }

  // ---------------------------------------------------------------- inverses

  function Product(xs: seq<Element>): Element {
    if xs == [] then ONE else Mul(xs[0], Product(xs[1..]))
  }

  lemma {:induction false} ProductAppend(xs: seq<Element>, a: Element)
    ensures Product(xs + [a]) == Mul(Product(xs), a)
  {
    if xs == [] {
      assert Product([a]) == Mul(a, Product([a][1..]));
      MulOneRight(a);
      MulOneLeft(a);
    } else {
      assert (xs + [a])[1..] == xs[1..] + [a];
      ProductAppend(xs[1..], a);
      MulAssociates(xs[0], Product(xs[1..]), a);
    }
  }

  lemma {:induction false} SquareOfProduct(xs: seq<Element>, ys: seq<Element>)
    requires |ys| == |xs| && forall i :: 0 <= i < |xs| ==> ys[i] == Square(xs[i])
    ensures Square(Product(xs)) == Product(ys)
  {
    if xs == [] {
      assert Square(ONE) == ONE;
    } else {
      SquareOfMul(xs[0], Product(xs[1..]));
      SquareOfProduct(xs[1..], ys[1..]);
    }
  }

  /** The squares of an element from its second to its 128th power. */
  function HigherSquares(a: Element): (r: seq<Element>)
    ensures |r| == 7 && r[0] == Square(a) && forall i :: 0 < i < 7 ==> r[i] == Square(r[i - 1])
  {
    var a2 := Square(a);
    var a4 := Square(a2);
    var a8 := Square(a4);
    var a16 := Square(a8);
    var a32 := Square(a16);
    var a64 := Square(a32);
    [a2, a4, a8, a16, a32, a64, Square(a64)]
  }

  /** The 254th power. */
  function Inverse(a: Element): Element {
    Product(HigherSquares(a))
  }

  /** The 255th power is its own square. */
  lemma NormIsFixed(a: Element)
    ensures var norm := Mul(a, Inverse(a)); Square(norm) == norm
  {
    var higher := HigherSquares(a);
    EightSquares(a);
    assert Square(higher[6]) == a;
    var all, shifted := [a] + higher, higher + [a];
    assert all[1..] == higher;
    SquareOfProduct(all, shifted);
    ProductAppend(higher, a);
    MulCommutes(Inverse(a), a);
  }

  /** A chain of squares multiplied by its first element is the next square. */
  lemma {:induction false} Telescopes(xs: seq<Element>)
    requires xs != [] && forall i :: 0 < i < |xs| ==> xs[i] == Square(xs[i - 1])
    ensures Mul(xs[0], Product(xs)) == Square(xs[|xs| - 1])
  {
    SquareIsProduct(xs[0]);
    MulAssociates(xs[0], xs[0], Product(xs[1..]));
    if |xs| == 1 {
      MulOneRight(xs[0]);
    } else {
      assert xs[1..][0] == xs[1] == Square(xs[0]);
      Telescopes(xs[1..]);
    }
  }

  /** The 256th power is the element itself, so the 255th does not vanish before it does. */
  lemma NormTimes(a: Element)
    ensures Mul(a, Mul(a, Inverse(a))) == a
  {
    Telescopes(HigherSquares(a));
    EightSquares(a);
    MulAssociates(a, a, Inverse(a));
    SquareIsProduct(a);
  }

  /** Every element but zero has an inverse. */
  lemma InverseWorks(a: Element)
    requires a != ZERO
    ensures Mul(a, Inverse(a)) == ONE
  {
    NormIsFixed(a);
    SquareFixes(Mul(a, Inverse(a)));
    NormTimes(a);
  }

  lemma InverseIsUnique(a: Element, b: Element)
    requires Mul(a, b) == ONE
    ensures a != ZERO && b == Inverse(a)
  {
    if a == ZERO {
      MulZeroLeft(b);
    } else {
      InverseWorks(a);
      MulCommutes(a, b);
      MulAssociates(b, a, Inverse(a));
      MulOneLeft(Inverse(a));
      MulOneRight(b);
    }
  }

  /** There are no divisors of zero. */
  lemma MulVanishes(a: Element, b: Element)
    ensures Mul(a, b) == ZERO <==> a == ZERO || b == ZERO
  {
    MulZeroLeft(b);
    if a != ZERO && Mul(a, b) == ZERO {
      InverseWorks(a);
      MulCommutes(a, Inverse(a));
      MulAssociates(Inverse(a), a, b);
      MulOneLeft(b);
    }
  }

  lemma InverseNonZero(a: Element)
    requires a != ZERO
    ensures Inverse(a) != ZERO
  {
    InverseWorks(a);
  }

  // -------------------------------------------------------------- as numbers

  predicate Bit(n: nat) {
    n % 2 == 1
  }

  /** The element of a byte value, one bit at a time. */
  function FromNat(n: nat): Element {
    var n1 := n / 2;
    var n2 := n1 / 2;
    var n3 := n2 / 2;
    var n4 := n3 / 2;
    var n5 := n4 / 2;
    var n6 := n5 / 2;
    Element(Bit(n), Bit(n1), Bit(n2), Bit(n3), Bit(n4), Bit(n5), Bit(n6), Bit(n6 / 2))
  }

  function Join(bit: bool, rest: nat): nat {
    (if bit then 1 else 0) + 2 * rest
  }

  function ToNat(a: Element): nat {
    Join(a.b0, Join(a.b1, Join(a.b2, Join(a.b3, Join(a.b4, Join(a.b5, Join(a.b6, Join(a.b7, 0))))))))
  }

  lemma BitAndRest(n: nat)
    ensures Join(Bit(n), n / 2) == n
  {
  }

  lemma JoinSplits(bit: bool, rest: nat)
    ensures Bit(Join(bit, rest)) == bit && Join(bit, rest) / 2 == rest
  {
  }

  lemma NumbersRoundTrip(n: nat)
    requires n < 256
    ensures ToNat(FromNat(n)) == n
  {
    var n1 := n / 2;
    var n2 := n1 / 2;
    var n3 := n2 / 2;
    var n4 := n3 / 2;
    var n5 := n4 / 2;
    var n6 := n5 / 2;
    BitAndRest(n);
    BitAndRest(n1);
    BitAndRest(n2);
    BitAndRest(n3);
    BitAndRest(n4);
    BitAndRest(n5);
    BitAndRest(n6);
    BitAndRest(n6 / 2);
    assert n6 / 2 / 2 == 0;
  }

  lemma ElementsFit(a: Element)
    ensures ToNat(a) < 256
  {
  }

  lemma FromNatReads(n: nat, n1: nat, n2: nat, n3: nat, n4: nat, n5: nat, n6: nat, n7: nat)
    requires n1 == n / 2 && n2 == n1 / 2 && n3 == n2 / 2 && n4 == n3 / 2
    requires n5 == n4 / 2 && n6 == n5 / 2 && n7 == n6 / 2
    ensures FromNat(n) == Element(Bit(n), Bit(n1), Bit(n2), Bit(n3), Bit(n4), Bit(n5), Bit(n6), Bit(n7))
  {
  }

  lemma ElementsRoundTrip(a: Element)
    ensures FromNat(ToNat(a)) == a
  {
    var n7 := Join(a.b7, 0);
    var n6 := Join(a.b6, n7);
    var n5 := Join(a.b5, n6);
    var n4 := Join(a.b4, n5);
    JoinSplits(a.b4, n5);
    JoinSplits(a.b5, n6);
    JoinSplits(a.b6, n7);
    JoinSplits(a.b7, 0);
    UpperRoundTrip(a, n4, n5, n6, n7);
  }

  lemma UpperRoundTrip(a: Element, n4: nat, n5: nat, n6: nat, n7: nat)
    requires n4 / 2 == n5 && n5 / 2 == n6 && n6 / 2 == n7
    requires Bit(n4) == a.b4 && Bit(n5) == a.b5 && Bit(n6) == a.b6 && Bit(n7) == a.b7
    ensures FromNat(Join(a.b0, Join(a.b1, Join(a.b2, Join(a.b3, n4))))) == a
  {
    var n3 := Join(a.b3, n4);
    var n2 := Join(a.b2, n3);
    var n1 := Join(a.b1, n2);
    JoinSplits(a.b0, n1);
    JoinSplits(a.b1, n2);
    JoinSplits(a.b2, n3);
    JoinSplits(a.b3, n4);
    FromNatReads(Join(a.b0, n1), n1, n2, n3, n4, n5, n6, n7);
  }

  // ------------------------------------------------------------------- loops

  /** One turn moves the term of the lowest bit into the sum. */
  lemma LoopStep(product: Element, a: Element, b: Element)
    requires b != ZERO
    ensures Add(if b.b0 then Add(product, a) else product, Mul(Double(a), ShiftDown(b))) == Add(product, Mul(a, b))
    ensures Width(ShiftDown(b)) < Width(b)
  {
    AddAssociates(product, Term(a, b.b0), Mul(Double(a), ShiftDown(b)));
    AddZero(product);
  }

  /** Shift, remembering the bit that falls out. */
  method DoubleSlow(a: Element) returns (r: Element)
    ensures r == Double(a)
  {
    DoubleShifts(a);
    AddZero(ShiftUp(a));
    r := ShiftUp(a);
    if a.b7 {
      r := Add(r, REDUCTION);
    }
  }

  /** The multiplication loop: the multiplicand is doubled while the multiplier is shifted out. */
  method MulSlow(a0: Element, b0: Element) returns (product: Element)
    ensures product == Mul(a0, b0)
  {
    var a, b := a0, b0;
    product := ZERO;
    AddZero(Mul(a, b));
    while b != ZERO
      invariant Add(product, Mul(a, b)) == Mul(a0, b0)
      decreases Width(b)
    {
      LoopStep(product, a, b);
      if b.b0 {
        product := Add(product, a);
      }
      a := DoubleSlow(a);
      b := ShiftDown(b);
    }
    AddZero(product);
  }

  /** The number of the inverse, which the search is bound to meet. */
  lemma InverseNumber(value: Element) returns (n: nat)
    requires value != ZERO
    ensures 1 <= n < 256 && Mul(value, FromNat(n)) == ONE
  {
    var inverse := Inverse(value);
    InverseWorks(value);
    n := ToNat(inverse);
    ElementsRoundTrip(inverse);
    ElementsFit(inverse);
    ZeroNumber();
    InverseNonZero(value);
  }

  lemma ZeroNumber()
    ensures FromNat(0) == ZERO
  {
  }

  /** The inverse table entry of a value: the first candidate whose product is one. */
  method FindInverse(value: Element) returns (r: Element)
    requires value != ZERO
    ensures r == Inverse(value)
  {
    ghost var wanted := InverseNumber(value);
    var candidate := 1;
    r := ZERO;
    var found := false;
    while candidate < 256 && !found
      invariant 1 <= candidate <= 256
      invariant found ==> Mul(value, r) == ONE
      invariant !found ==> candidate <= wanted
      decreases 256 - candidate, !found
    {
      var product := MulSlow(value, FromNat(candidate));
      if product == ONE {
        r, found := FromNat(candidate), true;
      } else {
        candidate := candidate + 1;
      }
    }
    InverseIsUnique(value, r);
  }
}
