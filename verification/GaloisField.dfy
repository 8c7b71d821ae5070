/** The field GF(256) of the message protocol: bytes added by exclusive or and multiplied as
    polynomials modulo x^8 + x^4 + x^3 + x^2 + 1 (0x11D). */
module GaloisField {
  import opened ExclusiveOr

  /** One turn of the multiplication loop on the left operand: shift, then reduce by 0x11D. */
  function Double(a: Byte): Byte {
    if a < 128 then 2 * a
    else
      XorByte(2 * a - 256, 0x1D);
      DropHighDigit(2 * a);
      Xor(2 * a, 0x11D)
  }

  lemma DropHighDigit(a: nat)
    requires 256 <= a < 512
    ensures Xor(a, 0x11D) == Xor(a - 256, 0x1D) < 256
  {
    XorByte(a - 256, 0x1D);
    SplitHighDigit(a - 256);
    SplitHighDigit(0x1D);
    XorMiddle(a - 256, 256, 0x1D, 256);
    XorSelf(256);
    XorCommutes(Xor(a - 256, 0x1D), 0);
  }

  lemma SplitHighDigit(b: Byte)
    ensures b + 256 == Xor(b, 256)
  {
    assert TwoTo(8) == 256;
    XorHighDigit(b, 8);
  }

  /** The product, by the binary digits of the right operand, least significant first. */
  function Multiply(a: Byte, b: Byte): Byte
    decreases b
  {
    if b == 0 then 0
    else Add(if b % 2 == 1 then a else 0, Multiply(Double(a), b / 2))
  }

  /** The loop of `multiply_field`. */
  method MultiplyField(left: Byte, right: Byte) returns (product: Byte)
    ensures product == Multiply(left, right)
  {
    product := 0;
    var l: Byte, r: Byte := left, right;
    while r != 0
      invariant Add(product, Multiply(l, r)) == Multiply(left, right)
      decreases r
    {
      ghost var rest := Multiply(Double(l), r / 2);
      ghost var before := product;
      if r % 2 == 1 {
        product := Add(product, l);
      }
      XorAssociates(before, if r % 2 == 1 then l else 0, rest);
      r := r / 2;
      var shifted: nat := 2 * l;
      if shifted >= 0x100 {
        shifted := Xor(shifted, 0x11D);
      }
      l := shifted;
    }
  }

  // Double and Multiply are linear over exclusive or.

  lemma DoubleLinear(a: Byte, b: Byte)
    ensures Double(Add(a, b)) == Add(Double(a), Double(b))
  {
    XorByte(a, b);
    XorDoubles(a, b);
    if a >= 128 && b >= 128 {
      XorMiddle(2 * a, 0x11D, 2 * b, 0x11D);
      XorSelf(0x11D);
      XorCommutes(Xor(2 * a, 2 * b), 0);
    } else if a >= 128 {
      XorMiddle(2 * a, 0x11D, 2 * b, 0);
    } else if b >= 128 {
      XorAssociates(2 * a, 2 * b, 0x11D);
    }
  }

  lemma XorDoubles(a: nat, b: nat)
    ensures Xor(2 * a, 2 * b) == 2 * Xor(a, b)
  {
    XorNode(false, a, false, b);
  }

  lemma {:induction false} LeftLinear(a: Byte, c: Byte, b: Byte)
    ensures Multiply(Add(a, c), b) == Add(Multiply(a, b), Multiply(c, b))
    decreases b
  {
    if b != 0 {
      DoubleLinear(a, c);
      LeftLinear(Double(a), Double(c), b / 2);
      var t, u := if b % 2 == 1 then a else 0, if b % 2 == 1 then c else 0;
      XorMiddle(t, u, Multiply(Double(a), b / 2), Multiply(Double(c), b / 2));
    }
  }

  lemma {:induction false} RightLinear(a: Byte, b: Byte, c: Byte)
    ensures Multiply(a, Add(b, c)) == Add(Multiply(a, b), Multiply(a, c))
    decreases b
  {
    if b == 0 || c == 0 {
    } else {
      XorDigit(b, c);
      RightLinear(Double(a), b / 2, c / 2);
      var t, u := if b % 2 == 1 then a else 0, if c % 2 == 1 then a else 0;
      XorSelf(a);
      XorMiddle(t, Multiply(Double(a), b / 2), u, Multiply(Double(a), c / 2));
      if b == c {
        XorSelf(b);
        XorSelf(b / 2);
      } else if Xor(b, c) == 0 {
        XorEqual(b, c);
      }
    }
  }

  lemma {:induction false} MultiplyZero(b: Byte)
    ensures Multiply(0, b) == 0
    decreases b
  {
    if b != 0 {
      MultiplyZero(b / 2);
    }
  }

  // Doubling either operand doubles the product.

  lemma {:induction false} DoubleOnLeft(a: Byte, b: Byte)
    ensures Multiply(Double(a), b) == Double(Multiply(a, b))
    decreases b
  {
    if b != 0 {
      DoubleOnLeft(Double(a), b / 2);
      DoubleLinear(if b % 2 == 1 then a else 0, Multiply(Double(a), b / 2));
    }
  }

  lemma MultiplyByOne(a: Byte)
    ensures Multiply(a, 1) == a
  {
    assert Multiply(Double(a), 0) == 0;
    XorCommutes(a, 0);
  }

  lemma MultiplyEven(a: Byte, b: Byte)
    requires b < 128
    ensures Multiply(a, 2 * b) == Double(Multiply(a, b))
  {
    DoubleOnLeft(a, b);
    assert (2 * b) / 2 == b;
  }

  lemma MultiplyOdd(a: Byte, b: Byte)
    requires b < 128
    ensures Multiply(a, 2 * b + 1) == Add(a, Double(Multiply(a, b)))
  {
    DoubleOnLeft(a, b);
    assert (2 * b + 1) / 2 == b;
  }

  /** The reduction constant: x^8 is x^4 + x^3 + x^2 + 1. */
  lemma HighDigitReduces(a: Byte)
    ensures Double(Multiply(a, 0x80)) == Multiply(a, 0x1D)
  {
    MultiplyByOne(a);
    var a2 := Double(a);
    var a4 := Double(a2);
    var a8 := Double(a4);
    var a16 := Double(a8);
    var a32 := Double(a16);
    var a64 := Double(a32);
    var a128 := Double(a64);
    assert Multiply(a, 0x80) == a128 by {
      MultiplyEven(a, 1);
      MultiplyEven(a, 2);
      MultiplyEven(a, 4);
      MultiplyEven(a, 8);
      MultiplyEven(a, 16);
      MultiplyEven(a, 32);
      MultiplyEven(a, 64);
    }
    assert Multiply(a, 0x1D) == Add(a, Add(a4, Add(a8, a16))) by {
      MultiplyOdd(a, 1);
      MultiplyOdd(a, 3);
      MultiplyEven(a, 7);
      MultiplyOdd(a, 14);
      DoubleLinear(a, a2);
      DoubleLinear(a, Add(a2, a4));
      DoubleLinear(a2, a4);
      DoubleLinear(a2, Add(a4, a8));
      DoubleLinear(a4, a8);
    }
    DoubleEightTimes(a);
  }

  predicate EightDoublings(a: Byte) {
    var a4 := Double(Double(a));
    var a8 := Double(a4);
    var a16 := Double(a8);
    Double(Double(Double(Double(a16)))) == Add(a, Add(a4, Add(a8, a16)))
  }

  lemma EightDoublingsAdd(a: Byte, b: Byte)
    requires EightDoublings(a) && EightDoublings(b)
    ensures EightDoublings(Add(a, b))
  {
    var a4, b4 := Double(Double(a)), Double(Double(b));
    var a8, b8 := Double(a4), Double(b4);
    var a16, b16 := Double(a8), Double(b8);
    DoubleLinear(a, b);
    DoubleLinear(Double(a), Double(b));
    DoubleLinear(a4, b4);
    DoubleLinear(a8, b8);
    DoubleLinear(a16, b16);
    DoubleLinear(Double(a16), Double(b16));
    DoubleLinear(Double(Double(a16)), Double(Double(b16)));
    DoubleLinear(Double(Double(Double(a16))), Double(Double(Double(b16))));
    XorMiddle(a8, a16, b8, b16);
    XorMiddle(a4, Add(a8, a16), b4, Add(b8, b16));
    XorMiddle(a, Add(a4, Add(a8, a16)), b, Add(b4, Add(b8, b16)));
  }

  lemma OneDoubledEightTimes()
    ensures EightDoublings(1)
  {
    var a16 := Double(8);
    var a128 := Double(Double(Double(a16)));
    assert a128 == 128;
    assert Double(a128) == 29;
    assert Add(8, a16) == 24 by { assert TwoTo(4) == 16; XorHighDigit(8, 4); }
    assert Add(4, 24) == 28 by { XorDoubles(2, 12); XorDoubles(1, 6); }
    assert Add(1, 28) == 29;
    assert Double(Double(1)) == 4;
    assert Double(4) == 8;
  }

  /** Checked on single digits and extended by linearity. */
  lemma {:induction false} DoubleEightTimes(a: Byte)
    ensures EightDoublings(a)
  {
    if a == 0 {
      assert EightDoublings(0);
    } else {
      DoubleEightTimes(a / 2);
      DoubledEightTimes(a / 2);
      LowestDigit(a);
      OneDoubledEightTimes();
      if a % 2 == 1 {
        EightDoublingsAdd(1, Double(a / 2));
      }
    }
  }

  lemma DoubledEightTimes(a: Byte)
    requires EightDoublings(a)
    ensures EightDoublings(Double(a))
  {
    var a4 := Double(Double(a));
    var a8 := Double(a4);
    var a16 := Double(a8);
    DoubleLinear(a, Add(a4, Add(a8, a16)));
    DoubleLinear(a4, Add(a8, a16));
    DoubleLinear(a8, a16);
  }

  lemma LowestDigit(b: Byte)
    ensures b / 2 < 128 && Double(b / 2) == 2 * (b / 2)
    ensures b == Add(b % 2, Double(b / 2))
  {
    XorCommutes(b % 2, Double(b / 2));
  }

  lemma DoubleOnRight(a: Byte, b: Byte)
    ensures Multiply(a, Double(b)) == Double(Multiply(a, b))
  {
    if b < 128 {
      MultiplyEven(a, b);
    } else {
      var low := b - 128;
      assert TwoTo(7) == 128;
      XorHighDigit(low, 7);
      assert b == Add(low, 128);
      DoubleLinear(low, 128);
      assert Double(128) == 0x1D;
      RightLinear(a, low, 128);
      RightLinear(a, Double(low), 0x1D);
      MultiplyEven(a, low);
      HighDigitReduces(a);
      DoubleLinear(Multiply(a, low), Multiply(a, 128));
    }
  }

  // The field laws.

  /** Multiplication is associative. */
  lemma {:induction false} Associative(a: Byte, b: Byte, c: Byte)
    ensures Multiply(Multiply(a, b), c) == Multiply(a, Multiply(b, c))
    decreases c
  {
    if c != 0 {
      DoubleOnRight(a, b);
      Associative(a, Double(b), c / 2);
      RightLinear(a, if c % 2 == 1 then b else 0, Multiply(Double(b), c / 2));
    }
  }

  lemma {:induction false} Identity(b: Byte)
    ensures Multiply(1, b) == b == Multiply(b, 1)
    decreases b
  {
    MultiplyByOne(b);
    if b != 0 {
      LowestDigit(b);
      Identity(b / 2);
      DoubleOnLeft(1, b / 2);
    }
  }

  /** Multiplication is commutative. */
  lemma {:induction false} Commutative(a: Byte, b: Byte)
    ensures Multiply(a, b) == Multiply(b, a)
    decreases b
  {
    MultiplyZero(a);
    if b != 0 {
      Commutative(a, b / 2);
      LowestDigit(b);
      LeftLinear(b % 2, Double(b / 2), a);
      DoubleOnLeft(a, b / 2);
      DoubleOnLeft(b / 2, a);
      Identity(a);
    }
  }

  // Powers of a byte.

  function Power(a: Byte, n: nat): Byte {
    if n == 0 then 1 else Multiply(Power(a, n - 1), a)
  }

  lemma {:induction false} PowerAdd(a: Byte, m: nat, n: nat)
    ensures Power(a, m + n) == Multiply(Power(a, m), Power(a, n))
  {
    if n == 0 {
      Identity(Power(a, m));
    } else {
      PowerAdd(a, m, n - 1);
      Associative(Power(a, m), Power(a, n - 1), a);
    }
  }

  lemma PowerPowerStep(a: Byte, m: nat, n: nat, p: nat)
    requires n > 0 && Power(a, p) == Power(Power(a, m), n - 1)
    ensures Power(a, p + m) == Power(Power(a, m), n)
  {
    PowerAdd(a, p, m);
  }

  lemma ProductNext(m: nat, n: nat)
    ensures n == 0 ==> m * n == 0
    ensures n > 0 ==> m * n == m * (n - 1) + m && m * (n - 1) >= 0
  {
  }

  lemma {:induction false} PowerOfProduct(a: Byte, m: nat, n: nat, p: nat)
    requires p == m * n
    ensures Power(a, p) == Power(Power(a, m), n)
    decreases n
  {
    ProductNext(m, n);
    if n > 0 {
      PowerOfProduct(a, m, n - 1, p - m);
      PowerPowerStep(a, m, n, p - m);
    }
  }

  lemma PowerPower(a: Byte, m: nat, n: nat)
    ensures Power(a, m * n) == Power(Power(a, m), n)
  {
    PowerOfProduct(a, m, n, m * n);
  }

  lemma {:induction false} PowerOfOne(n: nat)
    ensures Power(1, n) == 1
  {
    if n > 0 {
      PowerOfOne(n - 1);
    }
  }
}
