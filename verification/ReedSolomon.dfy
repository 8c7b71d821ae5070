/** The systematic code of the message protocol: 223 data bytes and 32 parity bytes, every code word a
    multiple of the generator with roots 2^0 .. 2^31. Polynomials list their leading coefficient first. */
module ReedSolomon {
  import opened ExclusiveOr
  import opened GaloisField
  import opened PowersOfTwo
  import opened Wrappers

  type Word = seq<Byte>

  function Zeros(n: nat): (w: Word)
    ensures |w| == n && forall i :: 0 <= i < n ==> w[i] == 0
  {
    seq(n, i => 0)
  }

  function Plus(p: Word, q: Word): (r: Word)
    requires |p| == |q|
    ensures |r| == |p| && forall i :: 0 <= i < |p| ==> r[i] == Add(p[i], q[i])
  {
    seq(|p|, i requires 0 <= i < |p| => Add(p[i], q[i]))
  }

  function Scale(c: Byte, p: Word): (r: Word)
    ensures |r| == |p| && forall i :: 0 <= i < |p| ==> r[i] == Multiply(c, p[i])
  {
    seq(|p|, i requires 0 <= i < |p| => Multiply(c, p[i]))
  }

  /** The value of a polynomial, by Horner's rule. */
  function Evaluate(p: Word, x: Byte): Byte {
    if p == [] then 0 else Add(Multiply(Evaluate(p[..|p| - 1], x), x), p[|p| - 1])
  }

  /** The product of two polynomials; the second has at least a constant term. */
  function Product(q: Word, g: Word): (r: Word)
    requires g != []
    ensures |r| == |q| + |g| - 1
  {
    if q == [] then Zeros(|g| - 1)
    else
      var n := |q| - 1;
      Plus(Product(q[..n], g) + [0], Zeros(n) + Scale(q[n], g))
  }

  // Evaluation is a ring homomorphism.

  lemma {:induction false} EvaluatePlus(p: Word, q: Word, x: Byte)
    requires |p| == |q|
    ensures Evaluate(Plus(p, q), x) == Add(Evaluate(p, x), Evaluate(q, x))
  {
    if p != [] {
      var n := |p| - 1;
      assert Plus(p, q)[..n] == Plus(p[..n], q[..n]);
      EvaluatePlus(p[..n], q[..n], x);
      var a, b := Evaluate(p[..n], x), Evaluate(q[..n], x);
      LeftLinear(a, b, x);
      XorMiddle(Multiply(a, x), Multiply(b, x), p[n], q[n]);
    }
  }

  lemma {:induction false} EvaluateScale(c: Byte, p: Word, x: Byte)
    ensures Evaluate(Scale(c, p), x) == Multiply(c, Evaluate(p, x))
  {
    if p != [] {
      var n := |p| - 1;
      assert Scale(c, p)[..n] == Scale(c, p[..n]);
      EvaluateScale(c, p[..n], x);
      Associative(c, Evaluate(p[..n], x), x);
      RightLinear(c, Multiply(Evaluate(p[..n], x), x), p[n]);
    }
  }

  lemma EvaluateShift(p: Word, x: Byte)
    ensures Evaluate(p + [0], x) == Multiply(Evaluate(p, x), x)
  {
    assert (p + [0])[..|p|] == p;
    XorCommutes(Multiply(Evaluate(p, x), x), 0);
  }

  lemma {:induction false} EvaluatePadded(n: nat, p: Word, x: Byte)
    ensures Evaluate(Zeros(n) + p, x) == Evaluate(p, x)
  {
    var w := Zeros(n) + p;
    if p != [] {
      assert w[..|w| - 1] == Zeros(n) + p[..|p| - 1];
      EvaluatePadded(n, p[..|p| - 1], x);
    } else if n > 0 {
      assert w == Zeros(n - 1) + p + [0];
      EvaluatePadded(n - 1, p, x);
      EvaluateShift(Zeros(n - 1) + p, x);
      MultiplyZero(x);
    }
  }

  lemma {:induction false} EvaluateProduct(q: Word, g: Word, x: Byte)
    requires g != []
    ensures Evaluate(Product(q, g), x) == Multiply(Evaluate(q, x), Evaluate(g, x))
  {
    if q == [] {
      EvaluatePadded(|g| - 1, [], x);
      assert Zeros(|g| - 1) + [] == Zeros(|g| - 1);
      MultiplyZero(Evaluate(g, x));
    } else {
      var n := |q| - 1;
      var a, b := Evaluate(q[..n], x), Evaluate(g, x);
      EvaluatePlus(Product(q[..n], g) + [0], Zeros(n) + Scale(q[n], g), x);
      EvaluateShift(Product(q[..n], g), x);
      EvaluateProduct(q[..n], g, x);
      EvaluatePadded(n, Scale(q[n], g), x);
      EvaluateScale(q[n], g, x);
      SwapFactors(a, b, x);
      LeftLinear(Multiply(a, x), q[n], b);
    }
  }

  lemma SwapFactors(a: Byte, b: Byte, x: Byte)
    ensures Multiply(Multiply(a, b), x) == Multiply(Multiply(a, x), b)
  {
    Associative(a, b, x);
    Commutative(b, x);
    Associative(a, x, b);
  }

  // The generator.

  const PARITY: nat := 32
  const DATA: nat := 223
  const BLOCK: nat := 255

  function Roots(n: nat): (r: Word)
    ensures |r| == n && forall i :: 0 <= i < n ==> r[i] == Power(2, i)
  {
    seq(n, i requires 0 <= i => Power(2, i))
  }

  /** The product of x + root over the given roots. */
  function MonicProduct(roots: Word): (g: Word)
    ensures |g| == |roots| + 1
  {
    if roots == [] then [1]
    else
      var n := |roots| - 1;
      Product(MonicProduct(roots[..n]), [1, roots[n]])
  }

  function Generator(): (g: Word)
    ensures |g| == PARITY + 1
  {
    MonicProduct(Roots(PARITY))
  }

  /** A coefficient after one turn of the generator loop: times x, plus the multiple by the root. */
  function LinearTerm(c: Word, root: Byte, i: nat): Byte
    requires i <= |c|
  {
    Add(if i < |c| then c[i] else 0, if i > 0 then Multiply(c[i - 1], root) else 0)
  }

  lemma {:induction false} ProductWithLinear(c: Word, root: Byte)
    ensures forall i :: 0 <= i <= |c| ==> Product(c, [1, root])[i] == LinearTerm(c, root, i)
  {
    if c != [] {
      var n := |c| - 1;
      ProductWithLinear(c[..n], root);
      var p, s := Product(c[..n], [1, root]), Zeros(n) + Scale(c[n], [1, root]);
      Identity(c[n]);
      forall i | 0 <= i <= |c|
        ensures Plus(p + [0], s)[i] == LinearTerm(c, root, i)
      {
        if i == n {
          XorCommutes(c[n], if n > 0 then Multiply(c[n - 1], root) else 0);
        }
      }
    }
  }

  /** The inner generator loop: every coefficient is added in place and its multiple one place on. */
  method ExpandByRoot(coefficients: Word, root: Byte) returns (expanded: array<Byte>)
    ensures fresh(expanded) && expanded[..] == Product(coefficients, [1, root])
  {
    var size := |coefficients|;
    expanded := new Byte[size + 1](_ => 0);
    for index := 0 to size
      invariant forall i :: 0 <= i < index ==> expanded[i] == LinearTerm(coefficients, root, i)
      invariant expanded[index] == if index > 0 then Multiply(coefficients[index - 1], root) else 0
      invariant forall i :: index < i <= size ==> expanded[i] == 0
    {
      var value := coefficients[index];
      XorCommutes(expanded[index], value);
      expanded[index] := Add(expanded[index], value);
      var product := MultiplyField(value, root);
      expanded[index + 1] := Add(expanded[index + 1], product);
    }
    ProductWithLinear(coefficients, root);
  }

  lemma NoRoots()
    ensures MonicProduct(Roots(0)) == [1] && Power(2, 0) == 1
  {
  }

  lemma OneMoreRoot(count: nat)
    ensures MonicProduct(Roots(count + 1)) == Product(MonicProduct(Roots(count)), [1, Power(2, count)])
    ensures Power(2, count + 1) == Multiply(Power(2, count), 2)
  {
    assert Roots(count + 1)[..count] == Roots(count);
  }

  /** The generator loop: `coefficients` grows by one linear factor a turn. */
  method GeneratorCoefficients() returns (coefficients: Word)
    ensures coefficients == Generator()
  {
    coefficients := [1];
    var root: Byte := 1;
    NoRoots();
    for count := 0 to PARITY
      invariant root == Power(2, count)
      invariant coefficients == MonicProduct(Roots(count))
    {
      OneMoreRoot(count);
      var expanded := ExpandByRoot(coefficients, root);
      coefficients := expanded[..];
      root := MultiplyField(root, 2);
    }
  }

  lemma EvaluateOne(x: Byte)
    ensures Evaluate([1], x) == 1
  {
    var p: Word := [1];
    assert p[..0] == [];
    MultiplyZero(x);
    assert Evaluate(p, x) == Add(Multiply(Evaluate(p[..0], x), x), 1);
  }

  lemma EvaluateLinear(root: Byte, x: Byte)
    ensures Evaluate([1, root], x) == Add(x, root)
  {
    var p := [1, root];
    assert p[..1] == [1];
    EvaluateOne(x);
    Identity(x);
    assert Evaluate(p, x) == Add(Multiply(Evaluate(p[..1], x), x), root);
  }

  lemma ZeroProduct(a: Byte, b: Byte)
    ensures Multiply(a, b) == 0 <==> a == 0 || b == 0
  {
    MultiplyZero(b);
    if a != 0 && b != 0 {
      NoZeroDivisors(a, b);
    }
  }

  /** The product of linear factors is monic and vanishes exactly at its roots. */
  lemma {:induction false} MonicProductRoots(roots: Word, x: Byte)
    ensures Evaluate(MonicProduct(roots), x) == 0 <==> x in roots
    ensures MonicProduct(roots)[0] == 1
  {
    if roots == [] {
      EvaluateOne(x);
    } else {
      var n := |roots| - 1;
      var g, a := MonicProduct(roots[..n]), roots[n];
      assert roots == roots[..n] + [a];
      MonicProductRoots(roots[..n], x);
      LinearFactor(g, a, x);
    }
  }

  /** A linear factor adds its root and keeps the leading one. */
  lemma LinearFactor(g: Word, a: Byte, x: Byte)
    requires g != [] && g[0] == 1
    ensures Evaluate(Product(g, [1, a]), x) == 0 <==> Evaluate(g, x) == 0 || x == a
    ensures |Product(g, [1, a])| == |g| + 1 && Product(g, [1, a])[0] == 1
  {
    EvaluateProduct(g, [1, a], x);
    EvaluateLinear(a, x);
    ZeroProduct(Evaluate(g, x), Add(x, a));
    XorSelf(a);
    if Add(x, a) == 0 { XorEqual(x, a); }
    ProductWithLinear(g, a);
    assert Product(g, [1, a])[0] == LinearTerm(g, a, 0);
  }

  // The in-place division of protect_block.

  function CancelledByte(rem: Word, position: nat, g: Word, i: nat): Byte
    requires position < |rem| && i < |rem|
  {
    if position <= i < position + |g| then Add(rem[i], Multiply(rem[position], g[i - position])) else rem[i]
  }

  /** Cancel the leading byte at a position by subtracting a multiple of the divisor. */
  function Cancelled(rem: Word, position: nat, g: Word): (r: Word)
    requires position < |rem|
    ensures |r| == |rem|
    ensures forall i :: 0 <= i < |rem| ==> r[i] == CancelledByte(rem, position, g, i)
  {
    seq(|rem|, i requires 0 <= i < |rem| => CancelledByte(rem, position, g, i))
  }

  /** The remainder list after the first `steps` positions have been cancelled. */
  function Divided(data: Word, g: Word, steps: nat): (r: Word)
    requires g != [] && steps <= |data|
    ensures |r| == |data| + |g| - 1
  {
    if steps == 0 then data + Zeros(|g| - 1)
    else Cancelled(Divided(data, g, steps - 1), steps - 1, g)
  }

  /** The leading bytes met on the way, which are the quotient. */
  function Quotient(data: Word, g: Word, steps: nat): (q: Word)
    requires g != [] && steps <= |data|
    ensures |q| == steps
  {
    if steps == 0 then []
    else Quotient(data, g, steps - 1) + [Divided(data, g, steps - 1)[steps - 1]]
  }

  /** The code word of a data block: the data followed by the remainder. */
  function Protect(data: Word, g: Word): (w: Word)
    requires g != []
    ensures |w| == |data| + |g| - 1 && w[..|data|] == data
  {
    data + Divided(data, g, |data|)[|data|..]
  }

  lemma {:induction false} DividedLeadingZeros(data: Word, g: Word, steps: nat)
    requires g != [] && g[0] == 1 && steps <= |data|
    ensures forall i :: 0 <= i < steps ==> Divided(data, g, steps)[i] == 0
  {
    if steps > 0 {
      var rem := Divided(data, g, steps - 1);
      DividedLeadingZeros(data, g, steps - 1);
      Identity(rem[steps - 1]);
      XorSelf(rem[steps - 1]);
    }
  }

  /** The dividend less the product of a quotient so far. */
  function Reduced(data: Word, g: Word, q: Word): Word
    requires g != [] && |q| <= |data|
  {
    Plus(data + Zeros(|g| - 1), Product(q, g) + Zeros(|data| - |q|))
  }

  lemma ReducedNext(data: Word, g: Word, q: Word, c: Byte)
    requires g != [] && |q| < |data| && c == Reduced(data, g, q)[|q|]
    ensures Cancelled(Reduced(data, g, q), |q|, g) == Reduced(data, g, q + [c])
  {
    var n := |q|;
    var before := Product(q, g);
    assert (q + [c])[..n] == q;
    CancelledIsPlus(data + Zeros(|g| - 1), before, g, Reduced(data, g, q), n);
  }

  /** The loop's invariant: what has been taken away is the product of the quotient so far. */
  lemma {:induction false} DividedInvariant(data: Word, g: Word, steps: nat)
    requires g != [] && steps <= |data|
    ensures Divided(data, g, steps) == Reduced(data, g, Quotient(data, g, steps))
  {
    if steps == 0 {
      PlusZeros(data + Zeros(|g| - 1), Product([], g) + Zeros(|data|));
    } else {
      DividedInvariant(data, g, steps - 1);
      ReducedNext(data, g, Quotient(data, g, steps - 1), Divided(data, g, steps - 1)[steps - 1]);
    }
  }

  lemma PlusZeros(p: Word, z: Word)
    requires |z| == |p| && forall i :: 0 <= i < |z| ==> z[i] == 0
    ensures Plus(p, z) == p
  {
  }

  lemma CancelledIsPlus(padded: Word, before: Word, g: Word, rem: Word, n: nat)
    requires g != [] && |before| == n + |g| - 1 && |before| < |padded|
    requires rem == Plus(padded, before + Zeros(|padded| - |before|))
    ensures Cancelled(rem, n, g)
         == Plus(padded, Plus(before + [0], Zeros(n) + Scale(rem[n], g)) + Zeros(|padded| - |before| - 1))
  {
    var shifted := Zeros(n) + Scale(rem[n], g);
    var after := Plus(before + [0], shifted) + Zeros(|padded| - |before| - 1);
    forall i | 0 <= i < |rem|
      ensures CancelledByte(rem, n, g, i) == Plus(padded, after)[i]
    {
      if i < |before| + 1 {
        XorAssociates(padded[i], (before + [0])[i], shifted[i]);
      }
    }
  }

  /** What a division with nothing left in front leaves over. */
  lemma Completed(data: Word, zeros: Word, p: Word, rem: Word)
    requires |p| == |data| + |zeros| && rem == Plus(data + zeros, p)
    requires forall i :: 0 <= i < |zeros| ==> zeros[i] == 0
    requires forall i :: 0 <= i < |data| ==> rem[i] == 0
    ensures data + rem[|data|..] == p
  {
    forall i | 0 <= i < |data|
      ensures data[i] == p[i]
    {
      assert rem[i] == Add(data[i], p[i]);
      XorEqual(data[i], p[i]);
    }
  }

  /** A code word is its quotient times the divisor. */
  lemma ProtectIsMultiple(data: Word, g: Word)
    requires g != [] && g[0] == 1
    ensures Protect(data, g) == Product(Quotient(data, g, |data|), g)
  {
    var n := |data|;
    var p := Product(Quotient(data, g, n), g);
    DividedInvariant(data, g, n);
    DividedLeadingZeros(data, g, n);
    assert p + Zeros(0) == p;
    Completed(data, Zeros(|g| - 1), p, Divided(data, g, n));
  }

  /** The inner division loop, in place on the array `remainder`. */
  method CancelInPlace(remainder: array<Byte>, position: nat, divisor: Word)
    requires divisor != [] && position + |divisor| <= remainder.Length
    modifies remainder
    ensures remainder[..] == Cancelled(old(remainder[..]), position, divisor)
  {
    ghost var before := remainder[..];
    var leading := remainder[position];
    for offset := 0 to |divisor|
      invariant forall i :: 0 <= i < position + offset ==> remainder[i] == CancelledByte(before, position, divisor, i)
      invariant forall i :: position + offset <= i < remainder.Length ==> remainder[i] == before[i]
    {
      var product := MultiplyField(leading, divisor[offset]);
      remainder[position + offset] := Add(remainder[position + offset], product);
    }
  }

  /** The whole division: the data block, then the last thirty-two bytes of the remainder. A block of any other
      size is refused. */
  method ProtectBlock(data: Word) returns (word: Option<Word>)
    ensures word == if |data| == DATA then Some(Protect(data, Generator())) else None
  {
    if |data| != DATA {
      return None;
    }
    var divisor := GeneratorCoefficients();
    var remainder := new Byte[DATA + PARITY](i requires 0 <= i => if i < |data| then data[i] else 0);
    assert remainder[..] == data + Zeros(|divisor| - 1);
    for position := 0 to DATA
      invariant remainder[..] == Divided(data, divisor, position)
    {
      CancelInPlace(remainder, position, divisor);
    }
    word := Some(data + remainder[DATA..]);
  }

  ghost predicate IsCodeWord(w: Word) {
    |w| == BLOCK && forall j :: 0 <= j < PARITY ==> Evaluate(w, Power(2, j)) == 0
  }

  /** Every protected block evaluates to zero at 2^0 .. 2^31. */
  lemma ProtectIsCodeWord(data: Word)
    requires |data| == DATA
    ensures IsCodeWord(Protect(data, Generator()))
  {
    var g := Generator();
    MonicProductRoots(Roots(PARITY), 0);
    ProtectIsMultiple(data, g);
    var q := Quotient(data, g, |data|);
    forall j | 0 <= j < PARITY
      ensures Evaluate(Protect(data, g), Power(2, j)) == 0
    {
      var x := Power(2, j);
      assert Roots(PARITY)[j] == x;
      MonicProductRoots(Roots(PARITY), x);
      EvaluateProduct(q, g, x);
      Commutative(Evaluate(q, x), 0);
      MultiplyZero(Evaluate(q, x));
    }
  }
}
