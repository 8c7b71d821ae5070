/** Two generates the nonzero bytes: its powers 2^0 .. 2^254 are distinct, so they are all of them and
    the field has no zero divisors. */
module PowersOfTwo {
  import opened ExclusiveOr
  import opened GaloisField
  import opened Wrappers

  /** The eight binary digits of a byte, lowest first, on which doubling is a shift with feedback. */
  datatype Digits = Digits(d0: bool, d1: bool, d2: bool, d3: bool, d4: bool, d5: bool, d6: bool, d7: bool)

  function Shift(p: Digits): Digits {
    Digits(p.d7, p.d0, p.d1 != p.d7, p.d2 != p.d7, p.d3 != p.d7, p.d4, p.d5, p.d6)
  }

  function One(): Digits {
    Digits(true, false, false, false, false, false, false, false)
  }

  function Value(p: Digits): Byte {
    ValueBounds(p);
    Node(p.d0, Node(p.d1, Node(p.d2, Node(p.d3, HighDigits(p.d4, p.d5, p.d6, p.d7)))))
  }

  function HighDigits(d4: bool, d5: bool, d6: bool, d7: bool): (v: nat)
    ensures v < 16
    ensures v >= 8 <==> d7
  {
    Node(d4, Node(d5, Node(d6, Node(d7, 0))))
  }

  lemma ValueBounds(p: Digits)
    ensures Node(p.d0, Node(p.d1, Node(p.d2, Node(p.d3, HighDigits(p.d4, p.d5, p.d6, p.d7))))) < 256
  {
  }

  /** Adding 0x1D sets digit zero of an even number and flips digits two, three and four. */
  lemma AddReduction(d0: bool, d1: bool, d2: bool, d3: bool, rest: nat)
    ensures Xor(Node(false, Node(d0, Node(d1, Node(d2, Node(d3, rest))))), 0x1D)
         == Node(true, Node(d0, Node(!d1, Node(!d2, Node(!d3, rest)))))
  {
    XorNode(d3, rest, true, 0);
    XorNode(d2, Node(d3, rest), true, 1);
    XorNode(d1, Node(d2, Node(d3, rest)), true, 3);
    XorNode(d0, Node(d1, Node(d2, Node(d3, rest))), false, 7);
    XorNode(false, Node(d0, Node(d1, Node(d2, Node(d3, rest)))), true, 14);
    XorCommutes(rest, 0);
  }

  /** The value of the digits below the top one, moved up. */
  function MovedUp(p: Digits): nat {
    Node(false, Node(p.d0, Node(p.d1, Node(p.d2, Node(p.d3, Node(p.d4, Node(p.d5, Node(p.d6, 0))))))))
  }

  lemma DoubleWithTop(p: Digits)
    requires p.d7
    ensures Double(Value(p)) == Xor(MovedUp(p), 0x1D)
  {
    TopDigit(p);
    DropHighDigit(2 * Value(p));
  }

  lemma MovedUpReduces(p: Digits)
    requires p.d7
    ensures Xor(MovedUp(p), 0x1D) == Value(Shift(p))
  {
    AddReduction(p.d0, p.d1, p.d2, p.d3, Node(p.d4, Node(p.d5, Node(p.d6, 0))));
    FeedBack(p);
  }

  lemma ShiftIsDouble(p: Digits)
    ensures Value(Shift(p)) == Double(Value(p))
  {
    if p.d7 {
      DoubleWithTop(p);
      MovedUpReduces(p);
    } else {
      NoTopDigit(p);
    }
  }

  lemma TopDigit(p: Digits)
    requires p.d7
    ensures Value(p) >= 128
    ensures 2 * Value(p) - 256 == MovedUp(p)
  {
  }

  lemma FeedBack(p: Digits)
    requires p.d7
    ensures Value(Shift(p)) == Node(true, Node(p.d0, Node(!p.d1, Node(!p.d2, Node(!p.d3, Node(p.d4, Node(p.d5, Node(p.d6, 0))))))))
  {
  }

  lemma NoTopDigit(p: Digits)
    requires !p.d7
    ensures Value(p) < 128 && Value(Shift(p)) == 2 * Value(p)
  {
  }

  function Shifted(p: Digits, n: nat): Digits {
    if n == 0 then p else Shift(Shifted(p, n - 1))
  }

  lemma {:induction false} ShiftedAgain(p: Digits, m: nat, n: nat)
    ensures Shifted(p, m + n) == Shifted(Shifted(p, m), n)
  {
    if n > 0 {
      ShiftedAgain(p, m, n - 1);
    }
  }

  lemma {:induction false} PowerIsShifted(n: nat)
    ensures Power(2, n) == Value(Shifted(One(), n))
  {
    if n > 0 {
      PowerIsShifted(n - 1);
      ShiftIsDouble(Shifted(One(), n - 1));
      MultiplyByOne(Power(2, n - 1));
      MultiplyEven(Power(2, n - 1), 1);
    }
  }

  // The powers 2^15, 2^51, 2^85 and 2^255, by leaps of seventeen.

  function FiveShifts(p: Digits): Digits {
    Shift(Shift(Shift(Shift(Shift(p)))))
  }

  function Fifteen(p: Digits): Digits {
    FiveShifts(FiveShifts(FiveShifts(p)))
  }

  function Leap(p: Digits): Digits {
    Shift(Shift(Fifteen(p)))
  }

  // Exponents are variables here so that the verifier does not unroll them.

  lemma ShiftedFive(p: Digits, m: nat)
    ensures Shifted(p, m + 5) == FiveShifts(Shifted(p, m))
  {
    assert Shifted(p, m + 5) == Shift(Shifted(p, m + 4)) == Shift(Shift(Shifted(p, m + 3)));
    assert Shifted(p, m + 3) == Shift(Shifted(p, m + 2)) == Shift(Shift(Shifted(p, m + 1)));
  }

  lemma ShiftedFifteen(p: Digits, m: nat)
    ensures Shifted(p, m + 15) == Fifteen(Shifted(p, m))
  {
    ShiftedFive(p, m);
    ShiftedFive(p, m + 5);
    ShiftedFive(p, m + 10);
  }

  lemma ShiftedSeventeen(p: Digits, m: nat)
    ensures Shifted(p, m + 17) == Leap(Shifted(p, m))
  {
    ShiftedFifteen(p, m);
    assert Shifted(p, m + 17) == Shift(Shifted(p, m + 16)) == Shift(Shift(Shifted(p, m + 15)));
  }

  lemma TwoLeaps(p: Digits, q: Digits, r: Digits, n: nat)
    requires n == 34 && Leap(p) == q && Leap(q) == r
    ensures Shifted(p, n) == r
  {
    var m: nat := 0;
    ShiftedSeventeen(p, m);
    ShiftedSeventeen(p, m + 17);
  }

  lemma ThreeLeaps(p: Digits, q: Digits, r: Digits, s: Digits, n: nat)
    requires n == 51 && Leap(p) == q && Leap(q) == r && Leap(r) == s
    ensures Shifted(p, n) == s
  {
    TwoLeaps(p, q, r, n - 17);
    ShiftedSeventeen(p, n - 17);
  }

  // The digits of 2^51, 2^85, 2^102, 2^153 and 2^204.

  function At51(): Digits {
    Digits(false, true, false, true, false, false, false, false)
  }

  function At85(): Digits {
    Digits(false, true, true, false, true, false, true, true)
  }

  function At102(): Digits {
    Digits(false, false, true, false, false, false, true, false)
  }

  function At153(): Digits {
    Digits(false, true, false, false, true, false, false, true)
  }

  function At204(): Digits {
    Digits(true, false, true, true, true, false, true, true)
  }

  lemma From0To51(n: nat)
    requires n == 51
    ensures Shifted(One(), n) == At51()
  {
    var q := Digits(false, false, false, true, true, false, false, true);
    var r := Digits(false, true, true, true, false, false, true, false);
    assert Leap(One()) == q;
    assert Leap(q) == r;
    assert Leap(r) == At51();
    ThreeLeaps(One(), q, r, At51(), n);
  }

  lemma From51To102(n: nat)
    requires n == 51
    ensures Shifted(At51(), n) == At102()
  {
    var q := Digits(true, false, false, true, true, false, false, true);
    var r := Digits(false, true, true, false, true, false, true, true);
    assert Leap(At51()) == q;
    assert Leap(q) == r;
    assert Leap(r) == At102();
    ThreeLeaps(At51(), q, r, At102(), n);
  }

  lemma From102To153(n: nat)
    requires n == 51
    ensures Shifted(At102(), n) == At153()
  {
    var q := Digits(true, true, false, false, true, false, false, true);
    var r := Digits(true, true, true, true, false, false, true, false);
    assert Leap(At102()) == q;
    assert Leap(q) == r;
    assert Leap(r) == At153();
    ThreeLeaps(At102(), q, r, At153(), n);
  }

  lemma From153To204(n: nat)
    requires n == 51
    ensures Shifted(At153(), n) == At204()
  {
    var q := Digits(true, true, true, false, true, false, true, true);
    var r := Digits(false, false, true, true, true, false, true, true);
    assert Leap(At153()) == q;
    assert Leap(q) == r;
    assert Leap(r) == At204();
    ThreeLeaps(At153(), q, r, At204(), n);
  }

  lemma From204To255(n: nat)
    requires n == 51
    ensures Shifted(At204(), n) == One()
  {
    var q := Digits(true, false, true, false, false, false, true, false);
    var r := Digits(true, true, false, true, false, false, false, false);
    assert Leap(At204()) == q;
    assert Leap(q) == r;
    assert Leap(r) == One();
    ThreeLeaps(At204(), q, r, One(), n);
  }

  lemma From51To85(n: nat)
    requires n == 34
    ensures Shifted(At51(), n) == At85()
  {
    var q := Digits(true, false, false, true, true, false, false, true);
    assert Leap(At51()) == q;
    assert Leap(q) == At85();
    TwoLeaps(At51(), q, At85(), n);
  }

  lemma FifteenOfOne(n: nat)
    requires n == 15
    ensures Shifted(One(), n) == Digits(false, true, true, false, false, true, false, false)
  {
    var m: nat := 0;
    ShiftedFifteen(One(), m);
    assert Fifteen(One()) == Digits(false, true, true, false, false, true, false, false);
  }

  lemma Chain(m: nat, n: nat, p: Digits, q: Digits)
    requires Shifted(One(), m) == p && Shifted(p, n) == q
    ensures Shifted(One(), m + n) == q
  {
    ShiftedAgain(One(), m, n);
  }

  /** The order of two divides 255 but none of 15, 51 and 85. */
  lemma OrderOfTwo(n: nat)
    ensures n == 255 ==> Power(2, n) == 1
    ensures n == 15 || n == 51 || n == 85 ==> Power(2, n) != 1
  {
    PowerIsShifted(n);
    var turn: nat := 51;
    From0To51(turn);
    if n == 15 {
      FifteenOfOne(n);
    } else if n == 85 {
      From51To85(n - turn);
      Chain(turn, n - turn, At51(), At85());
    } else if n == 255 {
      FullTurn(turn, n);
    }
  }

  lemma FullTurn(turn: nat, n: nat)
    requires turn == 51 && n == 255
    ensures Shifted(One(), n) == One()
  {
    From0To51(turn);
    From51To102(turn);
    Chain(turn, turn, At51(), At102());
    From102To153(turn);
    Chain(turn + turn, turn, At102(), At153());
    From153To204(turn);
    Chain(turn + turn + turn, turn, At153(), At204());
    From204To255(turn);
    Chain(n - turn, turn, At204(), One());
  }

  // Powers with exponents modulo 255.

  lemma OneTurn(n: nat, rest: nat)
    requires n == rest + 255
    ensures Power(2, n) == Power(2, rest)
  {
    var turn: nat := 255;
    OrderOfTwo(turn);
    PowerAdd(2, turn, rest);
    Identity(Power(2, rest));
  }

  lemma {:induction false} WholeTurns(k: nat, m: nat, n: nat)
    requires n == 255 * k + m
    ensures Power(2, n) == Power(2, m)
  {
    if k > 0 {
      WholeTurns(k - 1, m, n - 255);
      OneTurn(n, n - 255);
    }
  }

  /** If 2^d is one and d is invertible modulo p, then 2^(255/p) is one. */
  lemma RootOfUnity(d: nat, p: nat, m: nat, v: nat, k: nat)
    requires m * p == 255 && v * d == p * k + 1 && Power(2, d) == 1
    ensures Power(2, m) == 1
  {
    Exponent(d, p, m, v, k);
    PowerPower(2, d, m * v);
    PowerOfOne(m * v);
    WholeTurns(k, m, d * (m * v));
  }

  lemma Exponent(d: nat, p: nat, m: nat, v: nat, k: nat)
    requires m * p == 255 && v * d == p * k + 1
    ensures d * (m * v) == 255 * k + m
  {
    assert d * (m * v) == m * (v * d);
    assert m * (p * k + 1) == (m * p) * k + m;
  }

  /** The multiple of d that is one more than a multiple of p, from one for the remainder of d. */
  lemma InverseModulo(d: nat, p: nat, v: nat) returns (k: nat)
    requires p > 0 && v * (d % p) % p == 1
    ensures v * d == p * k + 1
  {
    var q, r := d / p, d % p;
    k := v * q + v * r / p;
    assert v * d == v * (p * q + r);
    assert v * (p * q + r) == p * (v * q) + v * r;
    assert p * (v * q + v * r / p) == p * (v * q) + p * (v * r / p);
  }

  /** No smaller positive power of two is one. */
  lemma PowersAreNotOne(d: nat)
    requires 0 < d < 255
    ensures Power(2, d) != 1
  {
    if d % 3 != 0 {
      NotOneModulo(d, 3, 85, InverseOf(d % 3, 3));
    } else if d % 5 != 0 {
      NotOneModulo(d, 5, 51, InverseOf(d % 5, 5));
    } else {
      NotAllDivide(d);
      NotOneModulo(d, 17, 15, InverseOf(d % 17, 17));
    }
  }

  lemma NotAllDivide(d: nat)
    requires 0 < d < 255 && d % 3 == 0 && d % 5 == 0
    ensures d % 17 != 0
  {
    assert d % 15 == 0;
    var e := d / 15;
    assert d == 15 * e && 0 < e < 17;
  }

  lemma NotOneModulo(d: nat, p: nat, m: nat, v: nat)
    requires m * p == 255 && (m == 15 || m == 51 || m == 85)
    requires p > 0 && v * (d % p) % p == 1
    ensures Power(2, d) != 1
  {
    if Power(2, d) == 1 {
      var k := InverseModulo(d, p, v);
      RootOfUnity(d, p, m, v, k);
      OrderOfTwo(m);
    }
  }

  function InverseOf(r: nat, p: nat): (v: nat)
    requires 0 < r < p && (p == 3 || p == 5 || p == 17)
    ensures v * r % p == 1
  {
    if p == 3 then r
    else if p == 5 then [1, 3, 2, 4][r - 1]
    else [1, 9, 6, 13, 7, 3, 5, 15, 2, 12, 14, 10, 4, 11, 8, 16][r - 1]
  }

  /** The nodes 2^0 .. 2^254 are distinct. */
  lemma PowersDistinct(i: nat, j: nat)
    requires i < j < 255
    ensures Power(2, i) != Power(2, j)
  {
    var turn: nat := 255;
    OrderOfTwo(turn);
    PowersAreNotOne(turn - (j - i));
    PowerAdd(2, i, turn - j);
    PowerAdd(2, j, turn - j);
  }

  // Every nonzero byte is a power of two, so nonzero bytes have inverses.

  lemma PowerNotZero(n: nat)
    requires n <= 255
    ensures Power(2, n) != 0
  {
    var turn: nat := 255;
    OrderOfTwo(turn);
    PowerAdd(2, n, turn - n);
    MultiplyZero(Power(2, turn - n));
  }

  ghost function PowersBelow(n: nat): set<int> {
    if n == 0 then {} else PowersBelow(n - 1) + {Power(2, n - 1)}
  }

  lemma {:induction false} PowerBelow(x: int, n: nat) returns (i: nat)
    requires x in PowersBelow(n)
    ensures i < n && Power(2, i) == x
  {
    i := n - 1;
    if x != Power(2, i) {
      i := PowerBelow(x, n - 1);
    }
  }

  lemma {:induction false} PowersBelowSize(n: nat)
    requires n <= 255
    ensures |PowersBelow(n)| == n
  {
    if n > 0 {
      PowersBelowSize(n - 1);
      if Power(2, n - 1) in PowersBelow(n - 1) {
        var i := PowerBelow(Power(2, n - 1), n - 1);
        PowersDistinct(i, n - 1);
      }
    }
  }

  ghost function UpTo(n: nat): set<int> {
    if n == 0 then {} else UpTo(n - 1) + {n}
  }

  lemma {:induction false} UpToSize(n: nat)
    ensures |UpTo(n)| == n
    ensures forall x :: x in UpTo(n) <==> 0 < x <= n
  {
    if n > 0 {
      UpToSize(n - 1);
    }
  }

  lemma Logarithm(a: Byte) returns (n: nat)
    requires a != 0
    ensures n < 255 && Power(2, n) == a
  {
    var turn: nat := 255;
    UpToSize(turn);
    PowersBelowSize(turn);
    if a !in PowersBelow(turn) {
      forall x | x in PowersBelow(turn)
        ensures x in UpTo(turn) - {a as int}
      {
        var i := PowerBelow(x, turn);
        PowerNotZero(i);
      }
      SubsetIsSmaller(PowersBelow(turn), UpTo(turn) - {a as int});
    }
    n := PowerBelow(a, turn);
  }

  /** Nonzero bytes have inverses. */
  lemma Inverse(a: Byte) returns (b: Byte)
    requires a != 0
    ensures Multiply(a, b) == 1
  {
    var n := Logarithm(a);
    var turn: nat := 255;
    b := Power(2, turn - n);
    OrderOfTwo(turn);
    PowerAdd(2, n, turn - n);
  }

  /** The field has no zero divisors. */
  lemma NoZeroDivisors(a: Byte, b: Byte)
    requires a != 0 && b != 0
    ensures Multiply(a, b) != 0
  {
    var c := Inverse(b);
    Associative(a, b, c);
    Identity(a);
    MultiplyZero(c);
  }
}
