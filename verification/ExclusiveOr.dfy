/** Python's `^` on nonnegative integers, digit by digit, and the group laws it obeys. */
module ExclusiveOr {

  type Byte = x: int | 0 <= x < 256

  function Xor(a: nat, b: nat): nat {
    if a == 0 then b
    else if b == 0 then a
    else (if a % 2 == b % 2 then 0 else 1) + 2 * Xor(a / 2, b / 2)
  }

  /** The lowest digits add modulo two and the higher digits combine on their own. */
  lemma {:induction false} XorDigit(a: nat, b: nat)
    ensures Xor(a, b) % 2 == if a % 2 == b % 2 then 0 else 1
    ensures Xor(a, b) / 2 == Xor(a / 2, b / 2)
  {
    if a == 0 || b == 0 {
    } else {
      var x := Xor(a / 2, b / 2);
      assert Xor(a, b) == (if a % 2 == b % 2 then 0 else 1) + 2 * x;
    }
  }

  /** A number is determined by its lowest digit and the rest. */
  lemma SameDigits(a: nat, b: nat)
    requires a % 2 == b % 2 && a / 2 == b / 2
    ensures a == b
  {
  }

  lemma {:induction false} XorSelf(a: nat)
    ensures Xor(a, a) == 0
  {
    if a > 0 {
      XorSelf(a / 2);
    }
  }

  lemma {:induction false} XorCommutes(a: nat, b: nat)
    ensures Xor(a, b) == Xor(b, a)
  {
    if a > 0 && b > 0 {
      XorCommutes(a / 2, b / 2);
    }
  }

  lemma {:induction false} XorAssociates(a: nat, b: nat, c: nat)
    ensures Xor(Xor(a, b), c) == Xor(a, Xor(b, c))
    decreases a + b + c
  {
    if a > 0 && b > 0 && c > 0 {
      XorAssociates(a / 2, b / 2, c / 2);
      XorDigit(a, b);
      XorDigit(b, c);
      XorDigit(Xor(a, b), c);
      XorDigit(a, Xor(b, c));
      SameDigits(Xor(Xor(a, b), c), Xor(a, Xor(b, c)));
    }
  }

  /** The middle two of four terms trade places. */
  lemma XorMiddle(a: nat, b: nat, c: nat, d: nat)
    ensures Xor(Xor(a, b), Xor(c, d)) == Xor(Xor(a, c), Xor(b, d))
  {
    XorAssociates(a, b, Xor(c, d));
    XorAssociates(b, c, d);
    XorCommutes(b, c);
    XorAssociates(c, b, d);
    XorAssociates(a, c, Xor(b, d));
  }

  /** Adding a term twice removes it. */
  lemma XorCancels(a: nat, b: nat)
    ensures Xor(Xor(a, b), b) == a
    ensures Xor(a, Xor(a, b)) == b
  {
    XorAssociates(a, b, b);
    XorSelf(b);
    XorAssociates(a, a, b);
    XorSelf(a);
  }

  lemma XorEqual(a: nat, b: nat)
    requires Xor(a, b) == 0
    ensures a == b
  {
    XorCancels(a, b);
  }

  function TwoTo(n: nat): nat {
    if n == 0 then 1 else 2 * TwoTo(n - 1)
  }

  /** Numbers of n + 1 digits are closed under exclusive or; the top digit is set when exactly one is. */
  lemma {:induction false} XorTopDigit(a: nat, b: nat, n: nat)
    requires a < 2 * TwoTo(n) && b < 2 * TwoTo(n)
    ensures Xor(a, b) < 2 * TwoTo(n)
    ensures Xor(a, b) >= TwoTo(n) <==> (a >= TwoTo(n)) != (b >= TwoTo(n))
  {
    if n > 0 && a > 0 && b > 0 {
      XorTopDigit(a / 2, b / 2, n - 1);
    }
  }

  lemma XorByte(a: nat, b: nat)
    requires a < 256 && b < 256
    ensures Xor(a, b) < 256
    ensures Xor(a, b) >= 128 <==> (a >= 128) != (b >= 128)
  {
    assert TwoTo(7) == 128;
    XorTopDigit(a, b, 7);
  }

  /** A power of two above a number is added by exclusive or. */
  lemma {:induction false} XorHighDigit(b: nat, n: nat)
    requires b < TwoTo(n)
    ensures Xor(b, TwoTo(n)) == b + TwoTo(n)
  {
    if b > 0 {
      XorHighDigit(b / 2, n - 1);
    }
  }

  /** A binary number given by its lowest digit and the rest. */
  function Node(digit: bool, rest: nat): nat {
    (if digit then 1 else 0) + 2 * rest
  }

  lemma XorNode(b: bool, x: nat, c: bool, y: nat)
    ensures Xor(Node(b, x), Node(c, y)) == Node(b != c, Xor(x, y))
  {
    NodeParts(b, x);
    NodeParts(c, y);
    XorDigit(Node(b, x), Node(c, y));
    NodeParts(b != c, Xor(x, y));
    SameDigits(Xor(Node(b, x), Node(c, y)), Node(b != c, Xor(x, y)));
  }

  lemma NodeParts(digit: bool, rest: nat)
    ensures Node(digit, rest) / 2 == rest
    ensures Node(digit, rest) % 2 == if digit then 1 else 0
  {
  }

  /** Exclusive or of two bytes. */
  function Add(a: Byte, b: Byte): Byte {
    XorByte(a, b);
    Xor(a, b)
  }
}
