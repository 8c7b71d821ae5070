/** What an accepted PNG file calls for, said with the numbers of the PNG Specification (Second Edition): chunk names,
    the header's fields, and the decompressed bytes of plain and interlaced images. */
module PngOutcomes {
  import opened ExclusiveOr
  import opened PngChunks
  import opened PngInterlace
  import opened PngHeader
  import opened Wrappers

  // Rows.

  /** The coordinates below a size that have a remainder by a step. */
  function Congruent(size: nat, start: nat, step: nat): set<nat>
    requires step > 0
  {
    set y: nat | y < size && y % step == start
  }

  lemma {:induction false} CountIsCongruent(size: nat, start: nat, step: nat)
    requires start < step
    ensures Count(size, start, step) == |Congruent(size, start, step)|
  {
    if size == 0 {
      assert Congruent(0, start, step) == {};
    } else {
      CountIsCongruent(size - 1, start, step);
      TakesRemainder(start, step, size - 1);
      var before := Congruent(size - 1, start, step);
      if Takes(start, step, size - 1) {
        assert Congruent(size, start, step) == before + {size - 1};
      } else {
        assert Congruent(size, start, step) == before;
      }
    }
  }

  lemma ExtentIsCongruent(size: nat, start: nat, step: nat)
    requires start < step
    ensures Extent(size, start, step) == |Congruent(size, start, step)|
  {
    ExtentCounts(size, start, step);
    CountIsCongruent(size, start, step);
  }

  lemma {:induction false} SomeTaken(size: nat, start: nat, step: nat)
    requires start < step
    ensures Count(size, start, step) > 0 <==> size > start
  {
    if size > 0 {
      SomeTaken(size - 1, start, step);
      if size - 1 == start {
        assert Takes(start, step, start) by { assert 0 % step == 0; }
      }
    }
  }

  /** The rows of the seven passes, each counted when the pass has a column (section 8.2). */
  function InterlacedRows(width: nat, height: nat): nat {
    (if width > 0 then |Congruent(height, 0, 8)| else 0)
    + (if width > 4 then |Congruent(height, 0, 8)| else 0)
    + (if width > 0 then |Congruent(height, 4, 8)| else 0)
    + (if width > 2 then |Congruent(height, 0, 4)| else 0)
    + (if width > 0 then |Congruent(height, 2, 4)| else 0)
    + (if width > 1 then |Congruent(height, 0, 2)| else 0)
    + (if width > 0 then |Congruent(height, 1, 2)| else 0)
  }

  lemma RowsAppend(passes: seq<Pass>, p: Pass, width: nat, height: nat)
    requires Stepping(passes + [p]) && p.startX < p.stepX && p.startY < p.stepY
    ensures Stepping(passes)
    ensures RowsSum(passes + [p], width, height) ==
      RowsSum(passes, width, height) + if width > p.startX then |Congruent(height, p.startY, p.stepY)| else 0
  {
    assert (passes + [p])[..|passes|] == passes;
    forall i | 0 <= i < |passes|
      ensures passes[i] == (passes + [p])[i]
    {
    }
    ExtentCounts(width, p.startX, p.stepX);
    SomeTaken(width, p.startX, p.stepX);
    ExtentIsCongruent(height, p.startY, p.stepY);
  }

  lemma RowsOfSeven(width: nat, height: nat)
    ensures Stepping(Adam7()) && RowsSum(Adam7(), width, height) == InterlacedRows(width, height)
  {
    var p := Adam7();
    assert p == [p[0], p[1], p[2], p[3], p[4], p[5]] + [p[6]];
    RowsAppend([p[0], p[1], p[2], p[3], p[4], p[5]], p[6], width, height);
    assert [p[0], p[1], p[2], p[3], p[4], p[5]] == [p[0], p[1], p[2], p[3], p[4]] + [p[5]];
    RowsAppend([p[0], p[1], p[2], p[3], p[4]], p[5], width, height);
    assert [p[0], p[1], p[2], p[3], p[4]] == [p[0], p[1], p[2], p[3]] + [p[4]];
    RowsAppend([p[0], p[1], p[2], p[3]], p[4], width, height);
    assert [p[0], p[1], p[2], p[3]] == [p[0], p[1], p[2]] + [p[3]];
    RowsAppend([p[0], p[1], p[2]], p[3], width, height);
    assert [p[0], p[1], p[2]] == [p[0], p[1]] + [p[2]];
    RowsAppend([p[0], p[1]], p[2], width, height);
    assert [p[0], p[1]] == [p[0]] + [p[1]];
    RowsAppend([p[0]], p[1], width, height);
    assert [p[0]] == [] + [p[0]];
    RowsAppend([], p[0], width, height);
  }

  // Bytes.

  lemma Grouped(width: nat, height: nat, channels: nat)
    ensures channels * (width * height) == channels * width * height
    ensures channels * (width * height) + height == height * (1 + width * channels)
  {
    RowBytes(width, height, channels);
  }

  /** A plain image has a filter byte and its channel bytes in every row; an interlaced one has the same channel bytes
      and a filter byte in every row of every pass that has pixels. */
  lemma BudgetIs(width: nat, height: nat, channels: nat, interlace: nat)
    requires interlace <= 1
    ensures Budget(width, height, channels, interlace) ==
      if width == 0 then 0
      else if interlace == 0 then height * (1 + width * channels) else channels * width * height + InterlacedRows(width, height)
  {
    BudgetIsImageAndRows(width, height, channels, interlace);
    RowsOfSeven(width, height);
    Grouped(width, height, channels);
    assert width == 0 ==> channels * (width * height) == 0;
  }

  /** A big-endian number of four bytes. */
  function BigEndian(a: Byte, b: Byte, c: Byte, d: Byte): nat {
    0x100_0000 * a + 0x1_0000 * b + 0x100 * c + d
  }

  /** The width and height of a header, its first eight bytes. */
  function WidthOf(h: seq<Byte>): nat
    requires |h| == 13
  {
    BigEndian(h[0], h[1], h[2], h[3])
  }

  function HeightOf(h: seq<Byte>): nat
    requires |h| == 13
  {
    BigEndian(h[4], h[5], h[6], h[7])
  }

  lemma NumbersAre(h: seq<Byte>)
    requires |h| == 13
    ensures Number(h[..4]) == WidthOf(h) && Number(h[4..8]) == HeightOf(h)
  {
  }

  /** A good header: within the policy's limits, eight bits a sample, color without a palette, the only compression and
      filter methods, and interlaced or not (section 11.2.2). */
  lemma GoodHeaderIs(policy: Policy, h: seq<Byte>)
    ensures GoodHeader(policy, h) <==>
      && |h| == 13
      && policy.minimumSide <= WidthOf(h) && WidthOf(h) <= policy.maximumSide
      && policy.minimumSide <= HeightOf(h) && HeightOf(h) <= policy.maximumSide
      && WidthOf(h) * HeightOf(h) <= policy.maximumPixels
      && h[8] == 8 && h[9] in (if policy.allowGrayscale then {0, 2, 6} else {2, 6})
      && h[10] == 0 && h[11] == 0 && h[12] in {0, 1}
  {
    if |h| == 13 {
      NumbersAre(h);
    }
  }

  /** What a good header's pixels must decompress to: one, three or four bytes a pixel and the filter bytes. */
  lemma HeaderBudgetIs(policy: Policy, h: seq<Byte>)
    requires GoodHeader(policy, h)
    ensures
      var width, height := WidthOf(h), HeightOf(h);
      var channels := if h[9] == 0 then 1 else if h[9] == 2 then 3 else 4;
      HeaderBudget(h) ==
        if width == 0 then 0
        else if h[12] == 0 then height * (1 + width * channels) else channels * width * height + InterlacedRows(width, height)
  {
    NumbersAre(h);
    BudgetIs(WidthOf(h), HeightOf(h), Channels(h[9]), h[12]);
  }

  /** What the header of an accepted list is reported as. */
  lemma HeaderIs(policy: Policy, chunks: seq<Chunk>)
    requires Headed(policy, chunks)
    ensures
      var h := chunks[0].content;
      var given := HeaderOf(chunks);
      && given.width == WidthOf(h) && given.height == HeightOf(h)
      && (given.mode == L <==> h[9] == 0) && (given.mode == RGB <==> h[9] == 2) && (given.mode == RGBA <==> h[9] == 6)
      && given.names == set c | c in chunks :: c.name
  {
    NumbersAre(chunks[0].content);
    forall i | 0 <= i < |chunks|
      ensures chunks[i].name in Names(chunks)
    {
      NamesHave(chunks, chunks[i].name);
      assert At(chunks, i, chunks[i].name);
    }
    forall name | name in Names(chunks)
      ensures exists c :: c in chunks && c.name == name
    {
      NamesHave(chunks, name);
      var i :| 0 <= i < |chunks| && At(chunks, i, name);
      assert chunks[i] in chunks;
    }
  }

  // Names.

  /** The names are the letters of the specification, and the signature its eight bytes (section 5.2). */
  lemma NamesAre()
    ensures IHDR == Ascii("IHDR") && PLTE == Ascii("PLTE") && IDAT == Ascii("IDAT") && IEND == Ascii("IEND")
    ensures ACTL == Ascii("acTL") && FCTL == Ascii("fcTL") && FDAT == Ascii("fdAT") && TRNS == Ascii("tRNS")
    ensures CICP == Ascii("cICP") && ICCP == Ascii("iCCP") && SRGB == Ascii("sRGB") && GAMA == Ascii("gAMA") && CHRM == Ascii("cHRM")
    ensures SIGNATURE == [137] + Ascii("PNG\r\n") + [26] + Ascii("\n")
  {
  }

  /** A name of four letters with an upper-case third one; critical chunks are the four of the specification. */
  lemma PlainNameIs(name: seq<Byte>)
    ensures PlainName(name) <==>
      && |name| == 4 && (forall i :: 0 <= i < 4 ==> 65 <= name[i] <= 90 || 97 <= name[i] <= 122) && name[2] <= 90
      && (name[0] <= 90 ==> name in {Ascii("IHDR"), Ascii("PLTE"), Ascii("IDAT"), Ascii("IEND")})
  {
    NamesAre();
  }

  /** Animation, transparency and coding-independent color are not supported. */
  lemma ForbiddenIs(name: seq<Byte>)
    ensures Forbidden(name) <==> name in {Ascii("acTL"), Ascii("fcTL"), Ascii("fdAT"), Ascii("tRNS"), Ascii("cICP")}
  {
    NamesAre();
  }

  lemma NotAllZero(content: seq<Byte>)
    requires |content| == 4
    ensures content != [0, 0, 0, 0] <==> exists i :: 0 <= i < 4 && content[i] != 0
  {
    if forall i :: 0 <= i < 4 ==> content[i] == 0 {
      assert content == [0, 0, 0, 0];
    }
  }

  /** A palette has one to 256 colors; the color declarations have their sizes and ranges. */
  lemma GoodContentIs(judges: Judges, c: Chunk)
    ensures GoodContent(judges, c) <==>
      && (c.name == Ascii("PLTE") ==> exists n :: 1 <= n <= 256 && |c.content| == 3 * n)
      && (c.name == Ascii("sRGB") ==> |c.content| == 1 && c.content[0] < 4)
      && (c.name == Ascii("gAMA") ==> |c.content| == 4 && exists i :: 0 <= i < 4 && c.content[i] != 0)
      && (c.name == Ascii("cHRM") ==> |c.content| == 32)
      && (c.name == Ascii("iCCP") ==> judges.profile(c.content))
  {
    NamesAre();
    if |c.content| == 4 {
      NotAllZero(c.content);
    }
    if |c.content| % 3 == 0 {
      assert |c.content| == 3 * (|c.content| / 3);
    }
  }

  /** Palette and color declarations are the names that come once and before the pixels. */
  lemma EarlyIs(name: seq<Byte>)
    ensures Early(name) <==> name in {Ascii("PLTE"), Ascii("iCCP"), Ascii("sRGB"), Ascii("gAMA"), Ascii("cHRM")}
  {
    NamesAre();
  }
}
