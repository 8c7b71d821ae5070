/** Repetition of the protected bits over every pixel, and their recovery by vote. */
module PayloadMap {
  import opened Arithmetic
  import opened ExclusiveOr
  import opened ReedSolomon
  import opened PayloadCapacity
  import opened Wrappers

  // Bits, most significant first.

  function Digits(b: nat, width: nat): (bits: seq<nat>)
    ensures |bits| == width && forall i :: 0 <= i < width ==> bits[i] < 2
  {
    if width == 0 then [] else Digits(b / 2, width - 1) + [b % 2]
  }

  function Number(bits: seq<nat>): nat {
    if bits == [] then 0 else 2 * Number(bits[..|bits| - 1]) + bits[|bits| - 1]
  }

  lemma {:induction false} NumberOfDigits(b: nat, width: nat)
    requires b < TwoTo(width)
    ensures Number(Digits(b, width)) == b
  {
    if width > 0 {
      NumberOfDigits(b / 2, width - 1);
      assert Digits(b, width)[..width - 1] == Digits(b / 2, width - 1);
    }
  }

  lemma {:induction false} DigitsOfNumber(bits: seq<nat>)
    requires forall i :: 0 <= i < |bits| ==> bits[i] < 2
    ensures Number(bits) < TwoTo(|bits|) && Digits(Number(bits), |bits|) == bits
  {
    if bits != [] {
      var n := |bits| - 1;
      DigitsOfNumber(bits[..n]);
      assert Number(bits) / 2 == Number(bits[..n]) && Number(bits) % 2 == bits[n];
      assert bits == bits[..n] + [bits[n]];
    }
  }

  const WIDTH: nat := 8

  lemma ByteWidth(width: nat)
    requires width == 8
    ensures TwoTo(width) == 256
  {
    assert TwoTo(width) == 4 * TwoTo(width - 2) == 16 * TwoTo(width - 4);
    assert TwoTo(width - 4) == 4 * TwoTo(width - 6) == 16 * TwoTo(width - 8);
  }

  function Unpack(word: Word): (bits: seq<nat>)
    ensures |bits| == 8 * |word| && forall k :: 0 <= k < |bits| ==> bits[k] < 2
  {
    seq(8 * |word|, k requires 0 <= k < 8 * |word| => Digits(word[k / 8], WIDTH)[k % 8])
  }

  function PackByte(bits: seq<nat>, j: nat): Byte
    requires 8 * (j + 1) <= |bits| && forall k :: 0 <= k < |bits| ==> bits[k] < 2
  {
    DigitsOfNumber(bits[8 * j..8 * (j + 1)]);
    ByteWidth(|bits[8 * j..8 * (j + 1)]|);
    Number(bits[8 * j..8 * (j + 1)])
  }

  function Pack(bits: seq<nat>): (word: Word)
    requires |bits| % 8 == 0 && forall k :: 0 <= k < |bits| ==> bits[k] < 2
    ensures |word| == |bits| / 8
  {
    seq(|bits| / 8, j requires 0 <= j < |bits| / 8 => PackByte(bits, j))
  }

  /** Packing gives a word exactly for the bits of that word. */
  lemma PackIsUnpacked(bits: seq<nat>, word: Word)
    requires |bits| == 8 * |word| && forall k :: 0 <= k < |bits| ==> bits[k] < 2
    ensures Pack(bits) == word <==> bits == Unpack(word)
  {
    forall j | 0 <= j < |word|
      ensures PackByte(bits, j) == word[j] <==> bits[8 * j..8 * (j + 1)] == Digits(word[j], WIDTH)
    {
      DigitsOfNumber(bits[8 * j..8 * (j + 1)]);
      ByteWidth(WIDTH);
      NumberOfDigits(word[j], WIDTH);
    }
    if Pack(bits) == word {
      forall k | 0 <= k < |bits|
        ensures bits[k] == Unpack(word)[k]
      {
        var j := k / 8;
        assert PackByte(bits, j) == word[j];
        assert bits[k] == bits[8 * j..8 * (j + 1)][k % 8];
      }
    }
    if bits == Unpack(word) {
      forall j | 0 <= j < |word|
        ensures PackByte(bits, j) == word[j]
      {
        SliceOfUnpack(word, j);
      }
    }
  }

  /** Eight right bits are a right byte, whatever the others are. */
  lemma RightBitsRightByte(bits: seq<nat>, word: Word, j: nat)
    requires |bits| == 8 * |word| && j < |word| && forall k :: 0 <= k < |bits| ==> bits[k] < 2
    requires forall k :: 8 * j <= k < 8 * j + 8 ==> bits[k] == Unpack(word)[k]
    ensures Pack(bits)[j] == word[j]
  {
    SliceOfUnpack(word, j);
    assert bits[8 * j..8 * (j + 1)] == Unpack(word)[8 * j..8 * (j + 1)];
    DigitsOfNumber(bits[8 * j..8 * (j + 1)]);
    ByteWidth(WIDTH);
    NumberOfDigits(word[j], WIDTH);
  }

  lemma SliceOfUnpack(word: Word, j: nat)
    requires j < |word|
    ensures Unpack(word)[8 * j..8 * (j + 1)] == Digits(word[j], WIDTH)
  {
    forall i | 0 <= i < 8
      ensures Unpack(word)[8 * j..8 * (j + 1)][i] == Digits(word[j], WIDTH)[i]
    {
      assert (8 * j + i) / 8 == j && (8 * j + i) % 8 == i;
    }
  }

  // The map.

  function CreatePayloadMap(word: Word, context: Context): Result<seq<nat>, Failure> {
    var capacity :- CalculateCapacity(context);
    CapacityFits(context);
    if |word| * 8 != capacity.protectedBits then Err(InvalidProtocolInput)
    else
      Ok(seq(capacity.payloadMapBits, p requires 0 <= p => Unpack(word)[p % capacity.protectedBits]))
  }

  /** A received map: hard bits, or one finite logit a pixel. */
  datatype Channel = Hard(bits: seq<nat>) | Soft(logits: seq<real>)

  function Flat(channel: Channel): seq<real> {
    match channel
    case Hard(bits) => seq(|bits|, p requires 0 <= p < |bits| => bits[p] as real)
    case Soft(logits) => logits
  }

  /** The sum over every position congruent to k. */
  function VoteSum(flat: seq<real>, n: nat, k: nat): real
    requires n > 0
  {
    if flat == [] then 0.0
    else
      var last := |flat| - 1;
      VoteSum(flat[..last], n, k) + if last % n == k then flat[last] else 0.0
  }

  /** How many positions repeat bit k. */
  function Copies(size: nat, n: nat, k: nat): nat
    requires n > 0
  {
    if size == 0 then 0 else Copies(size - 1, n, k) + if (size - 1) % n == k then 1 else 0
  }

  /** The column sum over the full rows. */
  function ColumnSum(flat: seq<real>, n: nat, rows: nat, k: nat): real
    requires k < n && rows * n <= |flat|
  {
    if rows == 0 then 0.0
    else
      Position(k, rows - 1, n, rows);
      ColumnSum(flat, n, rows - 1, k) + flat[k + (rows - 1) * n]
  }

  lemma {:induction false} ColumnSumPrefix(flat: seq<real>, m: nat, n: nat, rows: nat, k: nat)
    requires k < n && rows * n <= m <= |flat|
    ensures ColumnSum(flat[..m], n, rows, k) == ColumnSum(flat, n, rows, k)
  {
    if rows > 0 {
      Position(k, rows - 1, n, rows);
      assert (rows - 1) * n == rows * n - n;
      ColumnSumPrefix(flat, m, n, rows - 1, k);
    }
  }

  /** The sum and the count over all congruent positions are those of full rows and a remainder. */
  predicate Summed(flat: seq<real>, n: nat, rows: nat, extra: nat, k: nat)
    requires k < n && extra < n && |flat| == extra + rows * n
  {
    && VoteSum(flat, n, k) == ColumnSum(flat, n, rows, k) + (if k < extra then flat[rows * n + k] else 0.0)
    && Copies(|flat|, n, k) == rows + (if k < extra then 1 else 0)
  }

  lemma LastVote(flat: seq<real>, n: nat, rows: nat, extra: nat, k: nat)
    requires k < n && extra < n && |flat| == extra + rows * n + 1
    ensures VoteSum(flat, n, k) == VoteSum(flat[..|flat| - 1], n, k) + (if extra == k then flat[|flat| - 1] else 0.0)
    ensures Copies(|flat|, n, k) == Copies(|flat| - 1, n, k) + (if extra == k then 1 else 0)
  {
    QuotientAndRemainder(extra, rows, n);
  }

  lemma ExtraVote(flat: seq<real>, n: nat, rows: nat, extra: nat, k: nat)
    requires k < n && 0 < extra < n && |flat| == extra + rows * n
    requires Summed(flat[..|flat| - 1], n, rows, extra - 1, k)
    ensures Summed(flat, n, rows, extra, k)
  {
    LastVote(flat, n, rows, extra - 1, k);
    ColumnSumPrefix(flat, |flat| - 1, n, rows, k);
  }

  lemma RowVote(flat: seq<real>, n: nat, rows: nat, k: nat)
    requires k < n && rows > 0 && |flat| == rows * n && |flat| - 1 == (n - 1) + (rows - 1) * n
    requires Summed(flat[..|flat| - 1], n, rows - 1, n - 1, k)
    ensures Summed(flat, n, rows, 0, k)
  {
    LastVote(flat, n, rows - 1, n - 1, k);
    ColumnSumPrefix(flat, |flat| - 1, n, rows - 1, k);
    Position(k, rows - 1, n, rows);
  }

  /** Full rows plus the remainder are the sum, and the count, over all congruent positions. */
  lemma {:induction false} RowsAndRemainder(flat: seq<real>, n: nat, rows: nat, extra: nat, k: nat)
    requires k < n && extra < n && |flat| == extra + rows * n
    ensures Summed(flat, n, rows, extra, k)
    decreases |flat|
  {
    if extra > 0 {
      RowsAndRemainder(flat[..|flat| - 1], n, rows, extra - 1, k);
      ExtraVote(flat, n, rows, extra, k);
    } else if rows > 0 {
      assert (rows - 1) * n == rows * n - n;
      RowsAndRemainder(flat[..|flat| - 1], n, rows - 1, n - 1, k);
      RowVote(flat, n, rows, k);
    }
  }

  /** Bit k is read as one when its positive votes outweigh the rest; an exact tie reads as zero. */
  function ReadBit(channel: Channel, n: nat, k: nat): (bit: nat)
    requires n > 0
    ensures bit < 2
  {
    var flat := Flat(channel);
    var positive :=
      if channel.Hard? then 2.0 * VoteSum(flat, n, k) > Copies(|flat|, n, k) as real
      else VoteSum(flat, n, k) > 0.0;
    if positive then 1 else 0
  }

  function ReadBits(channel: Channel, n: nat): (bits: seq<nat>)
    requires n > 0
    ensures |bits| == n && forall k :: 0 <= k < n ==> bits[k] == ReadBit(channel, n, k)
  {
    seq(n, k requires 0 <= k < n => ReadBit(channel, n, k))
  }

  /** The bytes the vote gives. */
  function ReadBytes(channel: Channel, size: nat): (word: Word)
    requires size > 0
    ensures |word| == size
  {
    Pack(ReadBits(channel, 8 * size))
  }

  lemma WholeBytes(context: Context)
    requires CalculateCapacity(context).Ok?
    ensures CalculateCapacity(context).value.protectedBits > 0 && CalculateCapacity(context).value.protectedBits % 8 == 0
  {
    CapacityFits(context);
  }

  /** The number of protected bits, once the context and the shape and values of the map are checked. */
  function CheckChannel(channel: Channel, context: Context): (n: Result<nat, Failure>)
    ensures n.Ok? ==> n.value > 0 && n.value % 8 == 0
  {
    var capacity :- CalculateCapacity(context);
    WholeBytes(context);
    if |Flat(channel)| != context.width * context.height then Err(InvalidProtocolInput)
    else if channel.Hard? && exists p :: 0 <= p < |channel.bits| && channel.bits[p] > 1 then Err(InvalidProtocolInput)
    else Ok(capacity.protectedBits)
  }

  function RecoverPayload(channel: Channel, context: Context): Result<Word, Failure> {
    var n :- CheckChannel(channel, context);
    Ok(Pack(ReadBits(channel, n)))
  }

  /** The column sums of the full rows, with the remainder added in place. */
  method SumVotes(flat: seq<real>, n: nat) returns (sums: array<real>)
    requires n > 0
    ensures fresh(sums) && sums.Length == n
    ensures forall k :: 0 <= k < n ==> sums[k] == VoteSum(flat, n, k)
    ensures forall k :: 0 <= k < n ==> Copies(|flat|, n, k) == |flat| / n + if k < |flat| % n then 1 else 0
  {
    var fullCount, extra := |flat| / n, |flat| % n;
    var fullLength := fullCount * n;
    assert |flat| == extra + fullLength;
    sums := new real[n](k requires 0 <= k < n => ColumnSum(flat, n, fullCount, k));
    forall k | 0 <= k < extra {
      sums[k] := sums[k] + flat[fullLength + k];
    }
    AllSummed(flat, n, fullCount, extra);
  }

  lemma AllSummed(flat: seq<real>, n: nat, rows: nat, extra: nat)
    requires extra < n && |flat| == extra + rows * n
    ensures forall k :: 0 <= k < n ==>
      VoteSum(flat, n, k) == ColumnSum(flat, n, rows, k) + (if k < extra then flat[rows * n + k] else 0.0)
    ensures forall k :: 0 <= k < n ==> Copies(|flat|, n, k) == rows + (if k < extra then 1 else 0)
  {
    forall k | 0 <= k < n
      ensures VoteSum(flat, n, k) == ColumnSum(flat, n, rows, k) + (if k < extra then flat[rows * n + k] else 0.0)
      ensures Copies(|flat|, n, k) == rows + (if k < extra then 1 else 0)
    {
      RowsAndRemainder(flat, n, rows, extra, k);
    }
  }

  /** The array computation: sum the votes, centre them for hard bits, and pack the positive ones. */
  method RecoverPayloadBytes(channel: Channel, context: Context) returns (result: Result<Word, Failure>)
    ensures result == RecoverPayload(channel, context)
  {
    var checked := CheckChannel(channel, context);
    if checked.Err? {
      return Err(checked.failure);
    }
    var flat, n := Flat(channel), checked.value;
    var fullCount, extra := |flat| / n, |flat| % n;
    var sums := SumVotes(flat, n);
    if channel.Hard? {
      forall k | 0 <= k < n {
        sums[k] := sums[k] * 2.0;
      }
      forall k | 0 <= k < n {
        sums[k] := sums[k] - fullCount as real;
      }
      forall k | 0 <= k < extra {
        sums[k] := sums[k] - 1.0;
      }
    }
    var totals := sums[..];
    var positive := seq(n, k requires 0 <= k < n => if totals[k] > 0.0 then 1 else 0);
    assert positive == ReadBits(channel, n);
    result := Ok(Pack(positive));
  }

  // Recovery.

  /** How many copies of bit k were flipped. */
  function Flips(bits: seq<nat>, n: nat, k: nat, sent: nat): nat
    requires n > 0
  {
    if bits == [] then 0
    else
      var last := |bits| - 1;
      Flips(bits[..last], n, k, sent) + if last % n == k && bits[last] != sent then 1 else 0
  }

  lemma {:induction false} VotesAndFlips(bits: seq<nat>, n: nat, k: nat, sent: nat)
    requires n > 0 && sent < 2 && forall p :: 0 <= p < |bits| ==> bits[p] < 2
    ensures VoteSum(Flat(Hard(bits)), n, k)
         == (if sent == 1 then Copies(|bits|, n, k) - Flips(bits, n, k, sent) else Flips(bits, n, k, sent)) as real
  {
    if bits != [] {
      var last := |bits| - 1;
      VotesAndFlips(bits[..last], n, k, sent);
      assert Flat(Hard(bits))[..last] == Flat(Hard(bits[..last]));
    }
  }

  /** Bit k survives: fewer than half of its copies flipped, or exactly half of a zero bit's. */
  predicate Survives(bits: seq<nat>, n: nat, k: nat, sent: nat)
    requires n > 0
  {
    if sent == 1 then 2 * Flips(bits, n, k, sent) < Copies(|bits|, n, k)
    else 2 * Flips(bits, n, k, sent) <= Copies(|bits|, n, k)
  }

  lemma SurvivorIsRead(bits: seq<nat>, n: nat, k: nat, sent: nat)
    requires n > 0 && sent < 2 && forall p :: 0 <= p < |bits| ==> bits[p] < 2
    ensures Survives(bits, n, k, sent) <==> ReadBit(Hard(bits), n, k) == sent
  {
    VotesAndFlips(bits, n, k, sent);
  }

  /** The bits read are the sent ones exactly when every bit survives. */
  lemma SurvivorsAreRead(bits: seq<nat>, sent: seq<nat>)
    requires sent != [] && (forall k :: 0 <= k < |sent| ==> sent[k] < 2) && forall p :: 0 <= p < |bits| ==> bits[p] < 2
    ensures ReadBits(Hard(bits), |sent|) == sent <==> forall k :: 0 <= k < |sent| ==> Survives(bits, |sent|, k, sent[k])
  {
    var n := |sent|;
    var read := ReadBits(Hard(bits), n);
    forall k | 0 <= k < n
      ensures Survives(bits, n, k, sent[k]) <==> read[k] == sent[k]
    {
      SurvivorIsRead(bits, n, k, sent[k]);
    }
  }

  lemma MapIsRead(word: Word, bits: seq<nat>, context: Context)
    requires CreatePayloadMap(word, context).Ok?
    requires |bits| == context.width * context.height && forall p :: 0 <= p < |bits| ==> bits[p] < 2
    ensures word != [] && RecoverPayload(Hard(bits), context) == Ok(ReadBytes(Hard(bits), |word|))
  {
    CapacityFits(context);
  }

  /** The vote gives the sent bytes back exactly when every bit survives. */
  lemma RecoverExactly(word: Word, bits: seq<nat>, context: Context)
    requires CreatePayloadMap(word, context).Ok?
    requires |bits| == context.width * context.height && forall p :: 0 <= p < |bits| ==> bits[p] < 2
    ensures RecoverPayload(Hard(bits), context) == Ok(word) <==>
      forall k :: 0 <= k < 8 * |word| ==> Survives(bits, 8 * |word|, k, Unpack(word)[k])
  {
    MapIsRead(word, bits, context);
    SurvivorsAreRead(bits, Unpack(word));
    PackIsUnpacked(ReadBits(Hard(bits), 8 * |word|), word);
  }

  lemma {:induction false} NoFlips(bits: seq<nat>, n: nat, k: nat, sent: nat)
    requires n > 0 && forall p :: 0 <= p < |bits| && p % n == k ==> bits[p] == sent
    ensures Flips(bits, n, k, sent) == 0
  {
    if bits != [] {
      NoFlips(bits[..|bits| - 1], n, k, sent);
    }
  }

  lemma UndamagedSurvives(bits: seq<nat>, n: nat, k: nat, sent: nat)
    requires k < n <= |bits| && forall p :: 0 <= p < |bits| && p % n == k ==> bits[p] == sent
    ensures Survives(bits, n, k, sent)
  {
    NoFlips(bits, n, k, sent);
    QuotientBounds(|bits|, n);
    RowsAndRemainder(Flat(Hard(bits)), n, |bits| / n, |bits| % n, k);
  }

  lemma MapRepeats(word: Word, context: Context)
    requires CreatePayloadMap(word, context).Ok?
    ensures word != [] && 8 * |word| <= |CreatePayloadMap(word, context).value| == context.width * context.height
    ensures var bits := CreatePayloadMap(word, context).value;
      forall p :: 0 <= p < |bits| ==> bits[p] == Unpack(word)[p % (8 * |word|)]
  {
    CapacityFits(context);
  }

  /** An undamaged map is recovered. */
  lemma RecoverUndoesCreate(word: Word, context: Context)
    requires CreatePayloadMap(word, context).Ok?
    ensures RecoverPayload(Hard(CreatePayloadMap(word, context).value), context) == Ok(word)
  {
    var bits, n := CreatePayloadMap(word, context).value, 8 * |word|;
    MapRepeats(word, context);
    forall k | 0 <= k < n
      ensures Survives(bits, n, k, Unpack(word)[k])
    {
      UndamagedSurvives(bits, n, k, Unpack(word)[k]);
    }
    RecoverExactly(word, bits, context);
  }

  /** Logits of plus or minus one. */
  function SignLogits(bits: seq<nat>): seq<real> {
    seq(|bits|, p requires 0 <= p < |bits| => if bits[p] == 1 then 1.0 else -1.0)
  }

  lemma {:induction false} SignVotes(bits: seq<nat>, n: nat, k: nat)
    requires n > 0 && forall p :: 0 <= p < |bits| ==> bits[p] < 2
    ensures VoteSum(SignLogits(bits), n, k) == 2.0 * VoteSum(Flat(Hard(bits)), n, k) - Copies(|bits|, n, k) as real
  {
    if bits != [] {
      var last := |bits| - 1;
      SignVotes(bits[..last], n, k);
      assert Flat(Hard(bits))[..last] == Flat(Hard(bits[..last]));
      assert SignLogits(bits)[..last] == SignLogits(bits[..last]);
    }
  }

  /** The hard-bit form agrees with the logit form on logits of plus or minus one. */
  lemma HardAgreesWithSoft(bits: seq<nat>, context: Context)
    requires forall p :: 0 <= p < |bits| ==> bits[p] < 2
    ensures RecoverPayload(Hard(bits), context) == RecoverPayload(Soft(SignLogits(bits)), context)
  {
    CapacityFits(context);
    if ValidContext(context) && |bits| == context.width * context.height {
      var n := CalculateCapacity(context).value.protectedBits;
      forall k | 0 <= k < n
        ensures ReadBit(Hard(bits), n, k) == ReadBit(Soft(SignLogits(bits)), n, k)
      {
        SignVotes(bits, n, k);
      }
      assert ReadBits(Hard(bits), n) == ReadBits(Soft(SignLogits(bits)), n);
    }
  }
}
