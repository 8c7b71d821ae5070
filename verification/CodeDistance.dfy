/** Distinct code words differ in at least thirty-three positions, so a received word lies within sixteen
    byte errors of at most one of them. The proof eliminates one Vandermonde node at a time. */
module CodeDistance {
  import opened ExclusiveOr
  import opened GaloisField
  import opened PowersOfTwo
  import opened ReedSolomon
  import opened Wrappers

  /** The number of positions at which two words differ. */
  function Distance(u: Word, v: Word): (d: nat)
    requires |u| == |v|
    ensures d <= |u|
  {
    if u == [] then 0
    else (if u[0] == v[0] then 0 else 1) + Distance(u[1..], v[1..])
  }

  lemma {:induction false} DistanceZero(u: Word, v: Word)
    requires |u| == |v|
    ensures Distance(u, v) == 0 <==> u == v
  {
    if u != [] {
      DistanceZero(u[1..], v[1..]);
      assert u == [u[0]] + u[1..] && v == [v[0]] + v[1..];
    }
  }

  lemma {:induction false} DistanceTriangle(u: Word, r: Word, v: Word)
    requires |u| == |r| == |v|
    ensures Distance(u, v) <= Distance(u, r) + Distance(r, v)
    ensures Distance(u, r) == Distance(r, u)
  {
    if u != [] {
      DistanceTriangle(u[1..], r[1..], v[1..]);
    }
  }

  /** The number of nonzero positions. */
  function Weight(w: Word): (d: nat)
    ensures d <= |w|
  {
    if w == [] then 0 else (if w[0] == 0 then 0 else 1) + Weight(w[1..])
  }

  lemma {:induction false} DistanceIsWeight(u: Word, v: Word)
    requires |u| == |v|
    ensures Distance(u, v) == Weight(Plus(u, v))
  {
    if u != [] {
      DistanceIsWeight(u[1..], v[1..]);
      assert Plus(u, v)[1..] == Plus(u[1..], v[1..]);
      XorSelf(u[0]);
      if Add(u[0], v[0]) == 0 { XorEqual(u[0], v[0]); }
    }
  }

  /** The node of the leading position: two to its exponent. */
  function LeadingNode(w: Word): Byte
    requires w != []
  {
    Power(2, |w| - 1)
  }

  /** The sum over positions of the byte times the j-th power of the node of its position. */
  function Moment(w: Word, j: nat): Byte {
    if w == [] then 0
    else Add(Multiply(w[0], Power(LeadingNode(w), j)), Moment(w[1..], j))
  }

  /** Moments are the values at the powers of two. */
  lemma {:induction false} MomentIsValue(w: Word, j: nat)
    ensures Moment(w, j) == Evaluate(w, Power(2, j))
  {
    if w != [] {
      var x, n := Power(2, j), |w| - 1;
      MomentIsValue(w[1..], j);
      EvaluateFront(w, x);
      PowerPower(2, n, j);
      PowerPower(2, j, n);
      assert n * j == j * n;
    }
  }

  lemma {:induction false} EvaluateFront(w: Word, x: Byte)
    requires w != []
    ensures Evaluate(w, x) == Add(Multiply(w[0], Power(x, |w| - 1)), Evaluate(w[1..], x))
  {
    var n := |w| - 1;
    var c, p := w[0], Power(x, n);
    if n == 0 {
      assert w[..0] == [] && w[1..] == [];
      MultiplyZero(x);
      Identity(c);
      XorCommutes(c, 0);
    } else {
      var front, last := w[..n], w[n];
      EvaluateFront(front, x);
      assert front[1..] == w[1..][..n - 1];
      assert w[1..][n - 1] == last;
      var q, rest := Power(x, n - 1), Evaluate(front[1..], x);
      LeftLinear(Multiply(c, q), rest, x);
      Associative(c, q, x);
      XorAssociates(Multiply(c, p), Multiply(rest, x), last);
    }
  }

  // Eliminating a node.

  /** Multiply every byte by the sum of its node and a given node. */
  function Eliminated(w: Word, x: Byte): (r: Word)
    ensures |r| == |w|
  {
    if w == [] then []
    else [Multiply(w[0], Add(LeadingNode(w), x))] + Eliminated(w[1..], x)
  }

  lemma {:induction false} EliminatedMoment(w: Word, x: Byte, j: nat)
    ensures Moment(Eliminated(w, x), j) == Add(Moment(w, j + 1), Multiply(x, Moment(w, j)))
  {
    if w == [] {
      assert Multiply(x, 0) == 0;
    } else {
      var e := Eliminated(w, x);
      assert e[1..] == Eliminated(w[1..], x);
      EliminatedMoment(w[1..], x, j);
      EliminatedTerm(w[0], LeadingNode(w), x, j);
      RightLinear(x, Multiply(w[0], Power(LeadingNode(w), j)), Moment(w[1..], j));
      XorMiddle(Multiply(w[0], Power(LeadingNode(w), j + 1)), Multiply(x, Multiply(w[0], Power(LeadingNode(w), j))),
                Moment(w[1..], j + 1), Multiply(x, Moment(w[1..], j)));
    }
  }

  lemma EliminatedTerm(c: Byte, node: Byte, x: Byte, j: nat)
    ensures Multiply(Multiply(c, Add(node, x)), Power(node, j))
         == Add(Multiply(c, Power(node, j + 1)), Multiply(x, Multiply(c, Power(node, j))))
  {
    var p := Power(node, j);
    RightLinear(c, node, x);
    LeftLinear(Multiply(c, node), Multiply(c, x), p);
    SwapFactors(c, node, p);
    Associative(c, p, node);
    SwapFactors(c, x, p);
    Commutative(Multiply(c, p), x);
  }

  /** Elimination clears exactly the position whose exponent is e and no other nonzero position. */
  lemma {:induction false} EliminatedWeight(w: Word, e: nat)
    requires |w| <= 255 && e < 255
    ensures Weight(Eliminated(w, Power(2, e)))
         == Weight(w) - if e < |w| && w[|w| - 1 - e] != 0 then 1 else 0
  {
    if w != [] {
      var x, r, n := Power(2, e), Eliminated(w, Power(2, e)), |w| - 1;
      assert r[1..] == Eliminated(w[1..], x);
      EliminatedWeight(w[1..], e);
      ZeroProduct(w[0], Add(LeadingNode(w), x));
      if e == n {
        XorSelf(x);
      } else {
        if e < n { PowersDistinct(e, n); } else { PowersDistinct(n, e); }
        if Add(LeadingNode(w), x) == 0 { XorEqual(LeadingNode(w), x); }
      }
    }
  }

  /** The exponent of the first nonzero position. */
  function LeadingExponent(w: Word): (e: nat)
    requires Weight(w) > 0
    ensures e < |w| && w[|w| - 1 - e] != 0
  {
    if w[0] != 0 then |w| - 1 else LeadingExponent(w[1..])
  }

  lemma {:induction false} MomentOfZero(w: Word, j: nat)
    requires Weight(w) == 0
    ensures Moment(w, j) == 0
  {
    if w != [] {
      MomentOfZero(w[1..], j);
      MultiplyZero(Power(LeadingNode(w), j));
    }
  }

  /** A single nonzero byte has a nonzero moment. */
  lemma {:induction false} SingleMoment(w: Word, j: nat)
    requires Weight(w) == 1 && j == 0
    ensures Moment(w, j) != 0
  {
    Identity(w[0]);
    if w[0] == 0 {
      SingleMoment(w[1..], j);
    } else {
      MomentOfZero(w[1..], j);
    }
  }

  lemma EliminatedVanishes(w: Word, x: Byte, j: nat)
    requires Moment(w, j) == 0 && Moment(w, j + 1) == 0
    ensures Moment(Eliminated(w, x), j) == 0
  {
    EliminatedMoment(w, x, j);
    assert Multiply(x, 0) == 0;
  }

  ghost predicate Vanishes(w: Word, t: nat) {
    forall j: nat :: j < t ==> Moment(w, j) == 0
  }

  lemma EliminatedVanishesBelow(w: Word, x: Byte, t: nat)
    requires Vanishes(w, t + 1)
    ensures Vanishes(Eliminated(w, x), t)
  {
    forall j: nat | j < t
      ensures Moment(Eliminated(w, x), j) == 0
    {
      EliminatedVanishes(w, x, j);
    }
  }

  /** A word with at most t nonzero bytes and t vanishing moments is zero. */
  lemma {:induction false} LowWeightIsZero(w: Word, t: nat)
    requires |w| <= 255 && Weight(w) <= t && Vanishes(w, t)
    ensures Weight(w) == 0
    decreases t
  {
    if Weight(w) > 0 {
      var e := LeadingExponent(w);
      EliminatedWeight(w, e);
      EliminatedVanishesBelow(w, Power(2, e), t - 1);
      LowWeightIsZero(Eliminated(w, Power(2, e)), t - 1);
      var first: nat := 0;
      SingleMoment(w, first);
    }
  }

  // The minimum distance.

  /** Two distinct code words differ in at least thirty-three positions. */
  lemma MinimumDistance(u: Word, v: Word)
    requires IsCodeWord(u) && IsCodeWord(v) && u != v
    ensures Distance(u, v) >= PARITY + 1
  {
    DistanceIsWeight(u, v);
    DistanceZero(u, v);
    var w := Plus(u, v);
    if Weight(w) <= PARITY {
      forall j: nat | j < PARITY
        ensures Moment(w, j) == 0
      {
        MomentIsValue(w, j);
        EvaluatePlus(u, v, Power(2, j));
      }
      LowWeightIsZero(w, PARITY);
    }
  }

  /** The outputs for two distinct data blocks differ in at least thirty-three of their 255 positions. */
  lemma ProtectedBlocksDiffer(a: Word, b: Word)
    requires |a| == |b| == DATA && a != b
    ensures Distance(Protect(a, Generator()), Protect(b, Generator())) >= PARITY + 1
  {
    var g := Generator();
    ProtectIsCodeWord(a);
    ProtectIsCodeWord(b);
    assert Protect(a, g)[..DATA] == a && Protect(b, g)[..DATA] == b;
    MinimumDistance(Protect(a, g), Protect(b, g));
  }

  /** The bound is attained: the generator itself, padded, has weight thirty-three. */
  lemma DistanceIsTight()
    ensures var w := Zeros(DATA - 1) + Generator(); IsCodeWord(w) && Distance(w, Zeros(BLOCK)) == PARITY + 1
  {
    var g := Generator();
    var w, z := Zeros(DATA - 1) + g, Zeros(BLOCK);
    MonicProductRoots(Roots(PARITY), 0);
    forall j | 0 <= j < PARITY
      ensures Evaluate(w, Power(2, j)) == 0 && Evaluate(z, Power(2, j)) == 0
    {
      var x := Power(2, j);
      assert Roots(PARITY)[j] == x;
      MonicProductRoots(Roots(PARITY), x);
      EvaluatePadded(DATA - 1, g, x);
      EvaluatePadded(BLOCK, [], x);
      assert z + [] == z;
    }
    assert w[DATA - 1] == 1;
    MinimumDistance(w, z);
    LeadingZerosAgree(DATA - 1, g, z);
  }

  lemma {:induction false} LeadingZerosAgree(n: nat, g: Word, z: Word)
    requires |z| == n + |g| && forall i :: 0 <= i < |z| ==> z[i] == 0
    ensures Distance(Zeros(n) + g, z) <= |g|
  {
    if n > 0 {
      assert (Zeros(n) + g)[1..] == Zeros(n - 1) + g;
      LeadingZerosAgree(n - 1, g, z[1..]);
    } else {
      assert Zeros(0) + g == g;
    }
  }

  lemma {:induction false} AgreeAtFirst(u: Word, v: Word, n: nat)
    requires n <= |u| == |v| && u[..n] == v[..n]
    ensures Distance(u, v) <= |u| - n
  {
    if n > 0 {
      assert u[..n][1..] == u[1..][..n - 1] && v[..n][1..] == v[1..][..n - 1];
      assert u[..n][0] == v[..n][0];
      AgreeAtFirst(u[1..], v[1..], n - 1);
    }
  }

  /** The words that vanish at all thirty-two roots are exactly the protected data blocks. */
  lemma CodeWordsAreProtected(w: Word)
    ensures IsCodeWord(w) <==> |w| == BLOCK && w == Protect(w[..DATA], Generator())
  {
    if |w| == BLOCK {
      var data := w[..DATA];
      var u := Protect(data, Generator());
      ProtectIsCodeWord(data);
      AgreeAtFirst(w, u, DATA);
      if IsCodeWord(w) && w != u {
        MinimumDistance(w, u);
      }
    }
  }

  // The library codec.

  /** What the library encoder is relied on for: the data in front of a word of the code. */
  ghost predicate Encodes(encode: Word -> Word) {
    forall data: Word :: |data| == DATA ==> IsCodeWord(encode(data)) && encode(data)[..DATA] == data
  }

  /** There is only one such encoder on whole blocks: the one whose division was written out by hand. */
  lemma EncodersAgree(encode: Word -> Word, data: Word)
    requires Encodes(encode) && |data| == DATA
    ensures encode(data) == Protect(data, Generator())
  {
    CodeWordsAreProtected(encode(data));
  }

  lemma EncodingIsPossible()
    ensures Encodes(data => Protect(data, Generator()))
  {
    forall data: Word | |data| == DATA
      ensures IsCodeWord(Protect(data, Generator()))
    {
      ProtectIsCodeWord(data);
    }
  }

  const RADIUS: nat := 16

  /** A received word lies within sixteen byte errors of the code word of at most one data block. */
  lemma UniqueDecoding(received: Word, a: Word, b: Word)
    requires |received| == BLOCK && |a| == |b| == DATA
    requires Distance(received, Protect(a, Generator())) <= RADIUS
    requires Distance(received, Protect(b, Generator())) <= RADIUS
    ensures a == b
  {
    var u, v := Protect(a, Generator()), Protect(b, Generator());
    DistanceTriangle(u, received, v);
    DistanceTriangle(received, u, v);
    if a != b {
      ProtectedBlocksDiffer(a, b);
    }
  }

  /** A received word within the correction radius of a data block's code word. */
  ghost predicate Near(received: Word, data: Word) {
    |data| == DATA && |received| == BLOCK && Distance(received, Protect(data, Generator())) <= RADIUS
  }

  /** What the library decoder is relied on for: up to sixteen altered bytes of a block are corrected. */
  ghost predicate Corrects(decode: Word -> Option<Word>) {
    forall data: Word, received: Word :: Near(received, data) ==> decode(received) == Some(data)
  }

  ghost function Nearest(received: Word): Option<Word> {
    if exists data :: Near(received, data) then
      var data :| Near(received, data);
      Some(data)
    else None
  }

  /** The contract on the decoder can be met, because at most one code word is near enough. */
  lemma CorrectionIsPossible()
    ensures Corrects(received => Nearest(received))
  {
    forall data: Word, received: Word | Near(received, data)
      ensures Nearest(received) == Some(data)
    {
      var other := Nearest(received).value;
      UniqueDecoding(received, data, other);
    }
  }
}
