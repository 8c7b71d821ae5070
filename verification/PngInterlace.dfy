/** Interlaced pixel budgets: the seven passes of Adam7 (section 8.2 of the PNG Specification, Second Edition). */
module PngInterlace {
  import opened Arithmetic
  import opened ExclusiveOr
  import opened Wrappers

  datatype Pass = Pass(startX: nat, startY: nat, stepX: nat, stepY: nat)

  function Whole(): seq<Pass> {
    [Pass(0, 0, 1, 1)]
  }

  function Adam7(): seq<Pass> {
    [Pass(0, 0, 8, 8), Pass(4, 0, 8, 8), Pass(0, 4, 4, 8), Pass(2, 0, 4, 4), Pass(0, 2, 2, 4), Pass(1, 0, 2, 2), Pass(0, 1, 1, 2)]
  }

  function Passes(interlace: nat): seq<Pass> {
    if interlace == 0 then Whole() else Adam7()
  }

  predicate Stepping(passes: seq<Pass>) {
    forall i :: 0 <= i < |passes| ==> passes[i].stepX > 0 && passes[i].stepY > 0
  }

  /** How many of the first `size` coordinates a pass takes, as the source computes it. */
  function Extent(size: nat, start: nat, step: nat): nat
    requires step > 0
  {
    var n := (size - start + step - 1) / step;
    if n < 0 then 0 else n
  }

  /** A coordinate that a pass takes. */
  predicate Takes(start: nat, step: nat, x: nat)
    requires step > 0
  {
    x >= start && (x - start) % step == 0
  }

  predicate TakesPixel(p: Pass, x: nat, y: nat)
    requires p.stepX > 0 && p.stepY > 0
  {
    Takes(p.startX, p.stepX, x) && Takes(p.startY, p.stepY, y)
  }

  /** How many of the first `size` coordinates a pass takes, counted one by one. */
  function Count(size: nat, start: nat, step: nat): nat
    requires step > 0
  {
    if size == 0 then 0 else Count(size - 1, start, step) + (if Takes(start, step, size - 1) then 1 else 0)
  }

  /** The pixels of a pass, counted row by row. */
  function Area(p: Pass, width: nat, height: nat): nat
    requires p.stepX > 0 && p.stepY > 0
  {
    if height == 0 then 0
    else Area(p, width, height - 1) + (if Takes(p.startY, p.stepY, height - 1) then Count(width, p.startX, p.stepX) else 0)
  }

  // The formula counts.

  lemma QuotientIs(n: int, step: nat, q: int, r: int)
    requires n == q * step + r && 0 <= r < step
    ensures n / step == q && n % step == r
  {
    assert n == n / step * step + n % step;
    UniqueQuotient(n / step, q, n % step, r, step);
  }

  lemma DivisionSteps(n: int, step: nat)
    requires step > 0
    ensures (n + 1) / step == n / step + (if (n + 1) % step == 0 then 1 else 0)
  {
    var q, r := n / step, n % step;
    assert n == q * step + r;
    if r + 1 == step {
      assert (q + 1) * step == q * step + step;
      QuotientIs(n + 1, step, q + 1, 0);
    } else {
      QuotientIs(n + 1, step, q, r + 1);
    }
  }

  lemma {:induction false} ExtentCounts(size: nat, start: nat, step: nat)
    requires step > 0
    ensures Extent(size, start, step) == Count(size, start, step)
  {
    if size == 0 {
      SmallQuotient(step - 1 - start, step);
    } else {
      ExtentCounts(size - 1, start, step);
      DivisionSteps(size - 1 - start + step - 1, step);
      if size - 1 < start {
        SmallQuotient(size - 1 - start + step, step);
        SmallQuotient(size - 1 - start + step - 1, step);
      } else {
        ShiftedRemainder(size - 1 - start, step);
        assert size - start + step - 1 == (size - 1 - start) + step;
        NonnegativeQuotient(size - 1 - start + step - 1, step);
      }
    }
  }

  lemma SmallQuotient(n: int, step: nat)
    requires step > 0 && n < step
    ensures n / step <= 0
  {
    var q := n / step;
    assert n == q * step + n % step;
    if q > 0 {
      MulMonotone(1, q, step);
    }
  }

  lemma NonnegativeQuotient(n: int, step: nat)
    requires step > 0 && n >= 0
    ensures n / step >= 0
  {
  }

  lemma ShiftedRemainder(n: int, step: nat)
    requires step > 0
    ensures (n + step) % step == n % step
  {
    var q, r := n / step, n % step;
    assert (q + 1) * step == q * step + step;
    assert n == q * step + r;
    QuotientIs(n + step, step, q + 1, r);
  }

  lemma {:induction false} AreaIsProduct(p: Pass, width: nat, height: nat)
    requires p.stepX > 0 && p.stepY > 0
    ensures Area(p, width, height) == Extent(width, p.startX, p.stepX) * Extent(height, p.startY, p.stepY)
  {
    ExtentCounts(width, p.startX, p.stepX);
    ExtentCounts(height, p.startY, p.stepY);
    var w := Count(width, p.startX, p.stepX);
    if height != 0 {
      AreaIsProduct(p, width, height - 1);
      ExtentCounts(height - 1, p.startY, p.stepY);
      assert w * (Count(height - 1, p.startY, p.stepY) + 1) == w * Count(height - 1, p.startY, p.stepY) + w;
    } else {
      assert w * 0 == 0;
    }
  }

  // The passes partition the grid.

  /** A pass takes the coordinates with its start as remainder. */
  lemma TakesRemainder(start: nat, step: nat, x: nat)
    requires start < step
    ensures Takes(start, step, x) <==> x % step == start
  {
    if Takes(start, step, x) {
      assert x - start == (x - start) / step * step + 0;
      QuotientIs(x, step, (x - start) / step, start);
    }
    if x % step == start {
      var q := x / step;
      assert x == q * step + start;
      MulMonotone(0, q, step);
      QuotientIs(x - start, step, q, 0);
    }
  }

  /** The remainders by four and two follow from the one by eight. */
  lemma SmallerRemainders(x: nat)
    ensures var r := x % 8; x % 4 == (if r < 4 then r else r - 4)
    ensures x % 2 == if x % 4 < 2 then x % 4 else x % 4 - 2
  {
    var q, r := x / 8, x % 8;
    QuotientIs(x, 4, if r < 4 then 2 * q else 2 * q + 1, if r < 4 then r else r - 4);
    var p, t := x / 4, x % 4;
    QuotientIs(x, 2, if t < 2 then 2 * p else 2 * p + 1, if t < 2 then t else t - 2);
  }

  /** What the steps of the passes say of a coordinate, by its remainder by eight. */
  lemma Residues(x: nat)
    ensures var r := x % 8;
      && (Takes(0, 8, x) <==> r == 0) && (Takes(4, 8, x) <==> r == 4)
      && (Takes(0, 4, x) <==> r == 0 || r == 4) && (Takes(2, 4, x) <==> r == 2 || r == 6)
      && (Takes(0, 2, x) <==> r == 0 || r == 2 || r == 4 || r == 6)
      && (Takes(1, 2, x) <==> r == 1 || r == 3 || r == 5 || r == 7)
      && Takes(0, 1, x)
  {
    SmallerRemainders(x);
    TakesRemainder(0, 8, x);
    TakesRemainder(4, 8, x);
    TakesRemainder(0, 4, x);
    TakesRemainder(2, 4, x);
    TakesRemainder(0, 2, x);
    TakesRemainder(1, 2, x);
  }

  /** The pass of a pixel, by its remainders by eight. */
  function PassOf(x: nat, y: nat): (k: nat)
    ensures k < 7
  {
    var r, t := x % 8, y % 8;
    if t == 1 || t == 3 || t == 5 || t == 7 then 6
    else if r == 1 || r == 3 || r == 5 || r == 7 then 5
    else if t == 2 || t == 6 then 4
    else if r == 2 || r == 6 then 3
    else if t == 4 then 2
    else if r == 4 then 1
    else 0
  }

  /** Every pixel belongs to exactly one of the seven passes. */
  lemma ExactlyOnePass(x: nat, y: nat)
    ensures Stepping(Adam7())
    ensures forall i :: 0 <= i < 7 ==> (TakesPixel(Adam7()[i], x, y) <==> i == PassOf(x, y))
  {
    Residues(x);
    Residues(y);
  }

  /** Sum a quantity over passes. */
  function AreaSum(passes: seq<Pass>, width: nat, height: nat): nat
    requires Stepping(passes)
  {
    if passes == [] then 0 else Area(passes[0], width, height) + AreaSum(passes[1..], width, height)
  }

  function TakenInRow(p: Pass, width: nat, y: nat): nat
    requires p.stepX > 0 && p.stepY > 0
  {
    if Takes(p.startY, p.stepY, y) then Count(width, p.startX, p.stepX) else 0
  }

  function RowSum(passes: seq<Pass>, width: nat, y: nat): nat
    requires Stepping(passes)
  {
    if passes == [] then 0 else TakenInRow(passes[0], width, y) + RowSum(passes[1..], width, y)
  }

  /** How many of some passes take a pixel. */
  function Takers(passes: seq<Pass>, x: nat, y: nat): nat
    requires Stepping(passes)
  {
    if passes == [] then 0 else (if TakesPixel(passes[0], x, y) then 1 else 0) + Takers(passes[1..], x, y)
  }

  lemma {:induction false} RowGrows(passes: seq<Pass>, width: nat, y: nat)
    requires Stepping(passes)
    ensures RowSum(passes, width + 1, y) == RowSum(passes, width, y) + Takers(passes, width, y)
    ensures RowSum(passes, 0, y) == 0
  {
    if passes != [] {
      RowGrows(passes[1..], width, y);
    }
  }

  lemma {:induction false} AreaGrows(passes: seq<Pass>, width: nat, height: nat)
    requires Stepping(passes)
    ensures AreaSum(passes, width, height + 1) == AreaSum(passes, width, height) + RowSum(passes, width, height)
    ensures AreaSum(passes, width, 0) == 0
  {
    if passes != [] {
      AreaGrows(passes[1..], width, height);
    }
  }

  lemma {:induction false} TakersOutside(passes: seq<Pass>, x: nat, y: nat)
    requires Stepping(passes) && forall i :: 0 <= i < |passes| ==> !TakesPixel(passes[i], x, y)
    ensures Takers(passes, x, y) == 0
  {
    if passes != [] {
      assert !TakesPixel(passes[0], x, y);
      assert forall i :: 0 <= i < |passes| - 1 ==> passes[1..][i] == passes[i + 1];
      TakersOutside(passes[1..], x, y);
    }
  }

  lemma {:induction false} OneTaker(passes: seq<Pass>, x: nat, y: nat, k: nat)
    requires Stepping(passes) && k < |passes|
    requires forall i :: 0 <= i < |passes| ==> (TakesPixel(passes[i], x, y) <==> i == k)
    ensures Takers(passes, x, y) == 1
  {
    var rest := passes[1..];
    assert forall i :: 0 <= i < |rest| ==> rest[i] == passes[i + 1];
    assert TakesPixel(passes[0], x, y) <==> 0 == k;
    if k == 0 {
      TakersOutside(rest, x, y);
    } else {
      OneTaker(rest, x, y, k - 1);
    }
  }

  lemma {:induction false} RowIsWidth(width: nat, y: nat)
    ensures Stepping(Adam7()) && RowSum(Adam7(), width, y) == width
  {
    if width == 0 {
      RowGrows(Adam7(), 0, y);
    } else {
      RowIsWidth(width - 1, y);
      RowGrows(Adam7(), width - 1, y);
      ExactlyOnePass(width - 1, y);
      OneTaker(Adam7(), width - 1, y, PassOf(width - 1, y));
    }
  }

  /** The areas of the seven passes add up to the image. */
  lemma {:induction false} AreasSum(width: nat, height: nat)
    ensures Stepping(Adam7()) && AreaSum(Adam7(), width, height) == width * height
  {
    if height == 0 {
      AreaGrows(Adam7(), width, 0);
    } else {
      AreasSum(width, height - 1);
      AreaGrows(Adam7(), width, height - 1);
      RowIsWidth(width, height - 1);
      assert width * (height - 1) + width == width * height;
    }
  }

  // The byte budget.

  /** A nonempty pass has one filter byte a row beside its pixels. */
  function PassBytes(p: Pass, width: nat, height: nat, channels: nat): nat
    requires p.stepX > 0 && p.stepY > 0
  {
    var w, h := Extent(width, p.startX, p.stepX), Extent(height, p.startY, p.stepY);
    if w != 0 && h != 0 then h * (1 + w * channels) else 0
  }

  /** The rows of a pass, when it has any pixels. */
  function PassRows(p: Pass, width: nat, height: nat): nat
    requires p.stepX > 0 && p.stepY > 0
  {
    var w, h := Extent(width, p.startX, p.stepX), Extent(height, p.startY, p.stepY);
    if w != 0 then h else 0
  }

  function BytesSum(passes: seq<Pass>, width: nat, height: nat, channels: nat): nat
    requires Stepping(passes)
  {
    if passes == [] then 0
    else BytesSum(passes[..|passes| - 1], width, height, channels) + PassBytes(passes[|passes| - 1], width, height, channels)
  }

  function RowsSum(passes: seq<Pass>, width: nat, height: nat): nat
    requires Stepping(passes)
  {
    if passes == [] then 0
    else RowsSum(passes[..|passes| - 1], width, height) + PassRows(passes[|passes| - 1], width, height)
  }

  function AreaSumBack(passes: seq<Pass>, width: nat, height: nat): nat
    requires Stepping(passes)
  {
    if passes == [] then 0
    else AreaSumBack(passes[..|passes| - 1], width, height) + Area(passes[|passes| - 1], width, height)
  }

  lemma {:induction false} SameSums(passes: seq<Pass>, width: nat, height: nat)
    requires Stepping(passes)
    ensures AreaSum(passes, width, height) == AreaSumBack(passes, width, height)
  {
    if |passes| > 1 {
      var n := |passes| - 1;
      SameSums(passes[1..], width, height);
      SameSums(passes[..n], width, height);
      SameSums(passes[1..n], width, height);
      assert passes[1..][..n - 1] == passes[1..n] && passes[..n][1..] == passes[1..n];
    } else if |passes| == 1 {
      assert passes[1..] == [] && passes[..0] == [];
    }
  }

  lemma PassBytesSplit(p: Pass, width: nat, height: nat, channels: nat)
    requires p.stepX > 0 && p.stepY > 0
    ensures PassBytes(p, width, height, channels) == channels * Area(p, width, height) + PassRows(p, width, height)
  {
    AreaIsProduct(p, width, height);
    RowBytes(Extent(width, p.startX, p.stepX), Extent(height, p.startY, p.stepY), channels);
  }

  lemma RowBytes(w: nat, h: nat, channels: nat)
    ensures h * (1 + w * channels) == channels * (w * h) + h
    ensures w == 0 || h == 0 ==> channels * (w * h) == 0
  {
    assert h * (1 + w * channels) == h + h * (w * channels);
    assert h * (w * channels) == (h * w) * channels;
  }

  lemma {:induction false} BytesSplit(passes: seq<Pass>, width: nat, height: nat, channels: nat)
    requires Stepping(passes)
    ensures BytesSum(passes, width, height, channels) == channels * AreaSumBack(passes, width, height) + RowsSum(passes, width, height)
  {
    if passes != [] {
      var n := |passes| - 1;
      BytesSplit(passes[..n], width, height, channels);
      PassBytesSplit(passes[n], width, height, channels);
      assert channels * (AreaSumBack(passes[..n], width, height) + Area(passes[n], width, height))
          == channels * AreaSumBack(passes[..n], width, height) + channels * Area(passes[n], width, height);
    }
  }

  /** The budget of an image. */
  function Budget(width: nat, height: nat, channels: nat, interlace: nat): nat {
    BytesSum(Passes(interlace), width, height, channels)
  }

  /** The expected bytes are the image's channel bytes and one filter byte for each row of each nonempty pass;
      without interlacing that is one for each row. */
  lemma BudgetIsImageAndRows(width: nat, height: nat, channels: nat, interlace: nat)
    ensures Stepping(Passes(interlace))
    ensures Budget(width, height, channels, interlace) == channels * (width * height) + RowsSum(Passes(interlace), width, height)
    ensures RowsSum(Whole(), width, height) == if width == 0 then 0 else height
  {
    var passes := Passes(interlace);
    BytesSplit(passes, width, height, channels);
    SameSums(passes, width, height);
    assert Whole()[..0] == [] && Whole()[1..] == [];
    AreaIsProduct(Whole()[0], width, height);
    AreasSum(width, height);
  }

  lemma BytesStep(passes: seq<Pass>, i: nat, width: nat, height: nat, channels: nat)
    requires Stepping(passes) && i < |passes|
    ensures BytesSum(passes[..i + 1], width, height, channels) ==
      BytesSum(passes[..i], width, height, channels) + PassBytes(passes[i], width, height, channels)
  {
    assert passes[..i + 1][..i] == passes[..i];
  }

  /** The source's loop over the passes. */
  method ExpectedBytes(passes: seq<Pass>, width: nat, height: nat, channels: nat) returns (expected: nat)
    requires Stepping(passes)
    ensures expected == BytesSum(passes, width, height, channels)
  {
    expected := 0;
    for i := 0 to |passes|
      invariant expected == BytesSum(passes[..i], width, height, channels)
    {
      var p := passes[i];
      var passWidth := Extent(width, p.startX, p.stepX);
      var passHeight := Extent(height, p.startY, p.stepY);
      BytesStep(passes, i, width, height, channels);
      if passWidth != 0 && passHeight != 0 {
        var bytes: int := passHeight * (1 + passWidth * channels);
        assert bytes == PassBytes(p, width, height, channels);
        expected := expected + bytes;
      }
    }
    assert passes[..|passes|] == passes;
  }

  /** The validator of a compressed pixel stream: what it expects and what it was fed. */
  class PixelStreamValidator {
    var expectedBytes: nat
    var received: seq<Byte>

    constructor (width: nat, height: nat, channels: nat, interlace: nat)
      ensures expectedBytes == Budget(width, height, channels, interlace) && received == []
    {
      expectedBytes, received := 0, [];
      new;
      expectedBytes := ExpectedBytes(Passes(interlace), width, height, channels);
    }

    method Feed(data: seq<Byte>)
      modifies this
      ensures received == old(received) + data && expectedBytes == old(expectedBytes)
    {
      received := received + data;
    }

    /** Complete exactly when what was fed is one stream of the expected size. */
    method Finish(inflated: seq<Byte> -> Option<nat>) returns (complete: bool)
      ensures complete <==> inflated(received) == Some(expectedBytes)
    {
      complete := inflated(received) == Some(expectedBytes);
    }
  }
}
