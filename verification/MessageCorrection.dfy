/** Block protection and column interleaving of a frame, and their undoing under damage. */
module MessageCorrection {
  import opened Arithmetic
  import opened ReedSolomon
  import opened CodeDistance
  import opened PayloadCapacity
  import opened Wrappers

  /** The 223-byte slices of a frame. */
  function Blocks(frame: Word, count: nat): (blocks: seq<Word>)
    requires |frame| == DATA * count
    ensures |blocks| == count && forall b :: 0 <= b < count ==> |blocks[b]| == DATA
  {
    seq(count, b requires 0 <= b < count => frame[DATA * b..DATA * (b + 1)])
  }

  function Join(blocks: seq<Word>): Word {
    if blocks == [] then [] else blocks[0] + Join(blocks[1..])
  }

  /** Column by column, one byte of every block. */
  function Interleave(blocks: seq<Word>): (word: Word)
    requires forall b :: 0 <= b < |blocks| ==> |blocks[b]| == BLOCK
    ensures |word| == BLOCK * |blocks|
  {
    seq(BLOCK * |blocks|, p requires 0 <= p < BLOCK * |blocks| =>
      RowAndColumn(p, |blocks|, BLOCK);
      blocks[p % |blocks|][p / |blocks|])
  }

  /** Every count-th byte from an offset. */
  function Stride(word: Word, offset: nat, count: nat): (block: Word)
    requires offset < count && |word| == BLOCK * count
    ensures |block| == BLOCK
  {
    seq(BLOCK, c requires 0 <= c < BLOCK => Position(offset, c, count, BLOCK); word[offset + c * count])
  }

  /** Striding undoes interleaving. */
  lemma StrideOfInterleave(blocks: seq<Word>, b: nat)
    requires forall b :: 0 <= b < |blocks| ==> |blocks[b]| == BLOCK
    requires b < |blocks|
    ensures Stride(Interleave(blocks), b, |blocks|) == blocks[b]
  {
    forall c | 0 <= c < BLOCK
      ensures Stride(Interleave(blocks), b, |blocks|)[c] == blocks[b][c]
    {
      Position(b, c, |blocks|, BLOCK);
      QuotientAndRemainder(b, c, |blocks|);
    }
  }

  lemma {:induction false} JoinOfBlocks(frame: Word, count: nat)
    requires |frame| == DATA * count
    ensures Join(Blocks(frame, count)) == frame
  {
    if count > 0 {
      var rest := frame[DATA..];
      var blocks := Blocks(frame, count);
      JoinOfBlocks(rest, count - 1);
      forall b | 0 <= b < count - 1
        ensures blocks[1..][b] == Blocks(rest, count - 1)[b]
      {
        assert frame[DATA * (b + 1)..DATA * (b + 2)] == rest[DATA * b..DATA * (b + 1)];
      }
      assert blocks[1..] == Blocks(rest, count - 1);
      assert frame == blocks[0] + rest;
    }
  }

  /** The library's block encoder and decoder. */
  datatype BlockCodec = BlockCodec(encode: Word -> Word, decode: Word -> Option<Word>)

  ghost predicate SoundBlocks(blocks: BlockCodec) {
    Encodes(blocks.encode) && Corrects(blocks.decode)
  }

  function ProtectedBlocks(frame: Word, count: nat, encode: Word -> Word): (blocks: seq<Word>)
    requires |frame| == DATA * count && Encodes(encode)
    ensures |blocks| == count && forall b :: 0 <= b < count ==> |blocks[b]| == BLOCK
  {
    var data := Blocks(frame, count);
    seq(count, b requires 0 <= b < count => encode(data[b]))
  }

  function ProtectFrame(frame: Word, context: Context, encode: Word -> Word): Result<Word, Failure>
    requires Encodes(encode)
  {
    var capacity :- CalculateCapacity(context);
    CapacityFits(context);
    if |frame| != capacity.frameBytes then Err(InvalidProtocolInput)
    else Ok(Interleave(ProtectedBlocks(frame, capacity.blockCount, encode)))
  }

  /** Decode the strides from an index on; any failed block fails the frame. */
  function RestoreBlocks(word: Word, count: nat, index: nat, decode: Word -> Option<Word>): Result<Word, Failure>
    requires index <= count && |word| == BLOCK * count
    decreases count - index
  {
    if index == count then Ok([])
    else
      match decode(Stride(word, index, count))
      case None => Err(RecoveryFailed)
      case Some(block) =>
        var rest :- RestoreBlocks(word, count, index + 1, decode);
        Ok(block + rest)
  }

  function RestoreFrame(word: Word, context: Context, decode: Word -> Option<Word>): Result<Word, Failure> {
    var capacity :- CalculateCapacity(context);
    CapacityFits(context);
    if |word| * 8 != capacity.protectedBits then Err(RecoveryFailed)
    else RestoreBlocks(word, capacity.blockCount, 0, decode)
  }

  /** A received word with at most sixteen altered bytes in each of its blocks. */
  ghost predicate Damaged(sent: Word, received: Word, count: nat) {
    |sent| == |received| == BLOCK * count
    && forall b :: 0 <= b < count ==> Distance(Stride(received, b, count), Stride(sent, b, count)) <= RADIUS
  }

  lemma {:induction false} RestoreBlocksUndoes(frame: Word, received: Word, count: nat, index: nat, blocks: BlockCodec)
    requires |frame| == DATA * count && index <= count && SoundBlocks(blocks)
    requires Damaged(Interleave(ProtectedBlocks(frame, count, blocks.encode)), received, count)
    ensures RestoreBlocks(received, count, index, blocks.decode) == Ok(Join(Blocks(frame, count)[index..]))
    decreases count - index
  {
    if index < count {
      var data := Blocks(frame, count);
      RestoreBlocksUndoes(frame, received, count, index + 1, blocks);
      StrideOfInterleave(ProtectedBlocks(frame, count, blocks.encode), index);
      EncodersAgree(blocks.encode, data[index]);
      assert Near(Stride(received, index, count), data[index]);
      assert data[index..][1..] == data[index + 1..];
    }
  }

  /** Restoring undoes protecting, whatever damage of up to sixteen bytes a block came between. */
  lemma RestoreUndoesProtect(frame: Word, received: Word, context: Context, blocks: BlockCodec)
    requires SoundBlocks(blocks) && ProtectFrame(frame, context, blocks.encode).Ok?
    requires Damaged(ProtectFrame(frame, context, blocks.encode).value, received, CalculateCapacity(context).value.blockCount)
    ensures RestoreFrame(received, context, blocks.decode) == Ok(frame)
  {
    CapacityFits(context);
    var count := CalculateCapacity(context).value.blockCount;
    RestoreBlocksUndoes(frame, received, count, 0, blocks);
    JoinOfBlocks(frame, count);
    assert Blocks(frame, count)[0..] == Blocks(frame, count);
  }

  // Bursts.

  /** The two words agree outside sixteen consecutive rows of bytes. */
  ghost predicate Burst(sent: Word, received: Word, start: nat, count: nat) {
    |sent| == |received| == BLOCK * count
    && forall p :: 0 <= p < |sent| && !(start <= p < start + RADIUS * count) ==> received[p] == sent[p]
  }

  lemma {:induction false} DifferWithin(u: Word, v: Word, low: int, size: nat)
    requires |u| == |v|
    requires forall i :: 0 <= i < |u| && !(low <= i < low + size) ==> u[i] == v[i]
    ensures Distance(u, v) <= size
  {
    if u != [] {
      if low <= 0 < low + size {
        DifferWithin(u[1..], v[1..], 0, low + size - 1);
      } else {
        DifferWithin(u[1..], v[1..], low - 1, size);
      }
    }
  }

  /** A run of up to 16 times block_count consecutive altered bytes touches each block at most sixteen times. */
  lemma BurstIsSpread(sent: Word, received: Word, start: nat, count: nat)
    requires count > 0 && Burst(sent, received, start, count)
    ensures Damaged(sent, received, count)
  {
    forall b | 0 <= b < count
      ensures Distance(Stride(received, b, count), Stride(sent, b, count)) <= RADIUS
    {
      var low := FirstColumn(start, b, count);
      forall c | 0 <= c < BLOCK && !(low <= c < low + RADIUS)
        ensures Stride(received, b, count)[c] == Stride(sent, b, count)[c]
      {
        Position(b, c, count, BLOCK);
        ColumnOutside(start, b, count, low, c);
      }
      DifferWithin(Stride(received, b, count), Stride(sent, b, count), low, RADIUS);
    }
  }

  /** The first column of a block at or after a position. */
  function FirstColumn(start: nat, b: nat, count: nat): (low: nat)
    requires b < count
    ensures low > 0 ==> b + (low - 1) * count < start
    ensures start <= b + low * count
  {
    if start <= b then 0
    else
      var d := start - b - 1;
      assert d == d / count * count + d % count;
      assert (d / count + 1) * count == d / count * count + count;
      d / count + 1
  }

  lemma ColumnOutside(start: nat, b: nat, count: nat, low: nat, c: nat)
    requires b < count && low == FirstColumn(start, b, count)
    requires !(low <= c < low + RADIUS)
    ensures !(start <= b + c * count < start + RADIUS * count)
  {
    if c < low {
      MulMonotone(c, low - 1, count);
    } else {
      MulMonotone(low + RADIUS, c, count);
      assert (low + RADIUS) * count == low * count + RADIUS * count;
    }
  }
}
