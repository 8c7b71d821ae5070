/** The whole way of a message: encoded, spread over the pixels, damaged there, voted on, and decoded. */
module MessageTransmission {
  import opened Arithmetic
  import opened ReedSolomon
  import opened CodeDistance
  import opened PayloadCapacity
  import opened MessageCorrection
  import opened MessageFrame
  import opened PayloadMap
  import opened Wrappers

  /** The vote gives all eight bits of a byte as they were sent. */
  predicate ReadRight(channel: Channel, word: Word, j: nat)
    requires j < |word|
  {
    forall k :: 8 * j <= k < 8 * j + 8 ==> ReadBit(channel, 8 * |word|, k) == Unpack(word)[k]
  }

  /** Which bytes of a block hold a bit that is read wrongly. */
  function Misread(channel: Channel, word: Word, b: nat, count: nat): (flags: seq<bool>)
    requires b < count && |word| == BLOCK * count
    ensures |flags| == BLOCK
  {
    seq(BLOCK, c requires 0 <= c < BLOCK => Position(b, c, count, BLOCK); !ReadRight(channel, word, b + c * count))
  }

  function CountTrue(flags: seq<bool>): (n: nat)
    ensures n <= |flags|
  {
    if flags == [] then 0 else (if flags[0] then 1 else 0) + CountTrue(flags[1..])
  }

  lemma {:induction false} CountTrueCounts(flags: seq<bool>, from: nat)
    requires from <= |flags|
    ensures CountTrue(flags[from..]) == |set i | from <= i < |flags| && flags[i]|
    decreases |flags| - from
  {
    var places := set i | from <= i < |flags| && flags[i];
    if from == |flags| {
      assert places == {};
    } else {
      CountTrueCounts(flags, from + 1);
      assert flags[from..][1..] == flags[from + 1..];
      var later := set i | from + 1 <= i < |flags| && flags[i];
      assert places == later + if flags[from] then {from} else {};
    }
  }

  /** The count is the number of places that are true. */
  lemma CountTrueIs(flags: seq<bool>)
    ensures CountTrue(flags) == |set i | 0 <= i < |flags| && flags[i]|
  {
    CountTrueCounts(flags, 0);
    assert flags[0..] == flags;
  }

  lemma {:induction false} DistanceWithin(u: Word, v: Word, flags: seq<bool>)
    requires |u| == |v| == |flags| && forall i :: 0 <= i < |u| && !flags[i] ==> u[i] == v[i]
    ensures Distance(u, v) <= CountTrue(flags)
  {
    if u != [] {
      DistanceWithin(u[1..], v[1..], flags[1..]);
    }
  }

  /** No block has more than sixteen bytes holding a wrongly read bit. */
  predicate Correctable(channel: Channel, word: Word, count: nat)
    requires |word| == BLOCK * count
  {
    forall b :: 0 <= b < count ==> CountTrue(Misread(channel, word, b, count)) <= RADIUS
  }

  lemma RightByteIsKept(channel: Channel, word: Word, j: nat)
    requires j < |word| && ReadRight(channel, word, j)
    ensures ReadBytes(channel, |word|)[j] == word[j]
  {
    RightBitsRightByte(ReadBits(channel, 8 * |word|), word, j);
  }

  lemma BlockWithin(channel: Channel, word: Word, received: Word, b: nat, count: nat)
    requires b < count && |word| == BLOCK * count && received == ReadBytes(channel, |word|)
    ensures |received| == |word|
    ensures Distance(Stride(received, b, count), Stride(word, b, count)) <= CountTrue(Misread(channel, word, b, count))
  {
    var flags := Misread(channel, word, b, count);
    forall c | 0 <= c < BLOCK && !flags[c]
      ensures Stride(received, b, count)[c] == Stride(word, b, count)[c]
    {
      Position(b, c, count, BLOCK);
      RightByteIsKept(channel, word, b + c * count);
    }
    DistanceWithin(Stride(received, b, count), Stride(word, b, count), flags);
  }

  /** Wrongly read bits damage only the bytes that hold them. */
  lemma MisreadIsDamage(channel: Channel, word: Word, count: nat)
    requires |word| == BLOCK * count && word != [] && Correctable(channel, word, count)
    ensures Damaged(word, ReadBytes(channel, |word|), count)
  {
    var received := ReadBytes(channel, |word|);
    forall b | 0 <= b < count
      ensures Distance(Stride(received, b, count), Stride(word, b, count)) <= RADIUS
    {
      BlockWithin(channel, word, received, b, count);
    }
  }

  /** What a checked map is read as, beside a protected word of the same context. */
  lemma ReadAgainst(channel: Channel, context: Context, sent: Word)
    requires CheckChannel(channel, context).Ok? && |sent| * 8 == CalculateCapacity(context).value.protectedBits
    ensures
      var count := CalculateCapacity(context).value.blockCount;
      && count >= 0 && |sent| == BLOCK * count && sent != []
      && RecoverPayload(channel, context) == Ok(ReadBytes(channel, |sent|))
      && CreatePayloadMap(sent, context).Ok?
  {
    CapacityFits(context);
  }

  /** A received map, hard or soft, gives the message back whenever each block has at most sixteen bytes
      holding a bit whose vote comes out wrong. */
  lemma DecodeSurvivesVoting(message: Text, password: Text, context: Context, salt: Word, nonce: Word, cipher: Cipher, codec: Codec,
                             blocks: BlockCodec, channel: Channel)
    requires SoundCipher(cipher) && SoundCodec(codec) && SoundBlocks(blocks) && |salt| == 16 && |nonce| == 24
    requires CreateFrame(message, password, context, salt, nonce, cipher, codec).Ok? && CheckChannel(channel, context).Ok?
    ensures
      var sent := EncodeMessage(message, password, context, salt, nonce, cipher, codec, blocks);
      var count := CalculateCapacity(context).value.blockCount;
      && sent.Ok? && CreatePayloadMap(sent.value, context).Ok?
      && count >= 0 && |sent.value| == BLOCK * count
      && RecoverPayload(channel, context).Ok?
      && (Correctable(channel, sent.value, count) ==>
            DecodeMessage(RecoverPayload(channel, context).value, password, context, cipher, codec, blocks) == Ok(message))
  {
    var count := CalculateCapacity(context).value.blockCount;
    DecodeUndoesEncode(message, password, context, salt, nonce, cipher, codec, blocks, []);
    var sent := EncodeMessage(message, password, context, salt, nonce, cipher, codec, blocks).value;
    ReadAgainst(channel, context, sent);
    if Correctable(channel, sent, count) {
      MisreadIsDamage(channel, sent, count);
      DecodeUndoesEncode(message, password, context, salt, nonce, cipher, codec, blocks, RecoverPayload(channel, context).value);
    }
  }

  /** Every bit of a byte survives the flips of its copies. */
  predicate ByteSurvives(bits: seq<nat>, word: Word, j: nat)
    requires j < |word|
  {
    forall k :: 8 * j <= k < 8 * j + 8 ==> Survives(bits, 8 * |word|, k, Unpack(word)[k])
  }

  lemma SurvivingByteIsRead(bits: seq<nat>, word: Word, j: nat)
    requires j < |word| && forall p :: 0 <= p < |bits| ==> bits[p] < 2
    ensures ByteSurvives(bits, word, j) <==> ReadRight(Hard(bits), word, j)
  {
    forall k | 8 * j <= k < 8 * j + 8
      ensures Survives(bits, 8 * |word|, k, Unpack(word)[k]) <==> ReadBit(Hard(bits), 8 * |word|, k) == Unpack(word)[k]
    {
      SurvivorIsRead(bits, 8 * |word|, k, Unpack(word)[k]);
    }
  }

  /** The bytes of a block holding a bit that too many flips have turned. */
  function Turned(bits: seq<nat>, word: Word, b: nat, count: nat): (flags: seq<bool>)
    requires b < count && |word| == BLOCK * count
    ensures |flags| == BLOCK
  {
    seq(BLOCK, c requires 0 <= c < BLOCK => Position(b, c, count, BLOCK); !ByteSurvives(bits, word, b + c * count))
  }

  lemma TurnedIsMisread(bits: seq<nat>, word: Word, b: nat, count: nat)
    requires b < count && |word| == BLOCK * count && forall p :: 0 <= p < |bits| ==> bits[p] < 2
    ensures Turned(bits, word, b, count) == Misread(Hard(bits), word, b, count)
  {
    forall c | 0 <= c < BLOCK
      ensures Turned(bits, word, b, count)[c] == Misread(Hard(bits), word, b, count)[c]
    {
      Position(b, c, count, BLOCK);
      SurvivingByteIsRead(bits, word, b + c * count);
    }
  }

  /** However the bits of the map were flipped, the message comes back whenever each block has at most sixteen
      bytes holding a bit that does not survive: one with half of its copies flipped, more than half for a zero. */
  lemma DecodeSurvivesFlips(message: Text, password: Text, context: Context, salt: Word, nonce: Word, cipher: Cipher, codec: Codec,
                            blocks: BlockCodec, bits: seq<nat>)
    requires SoundCipher(cipher) && SoundCodec(codec) && SoundBlocks(blocks) && |salt| == 16 && |nonce| == 24
    requires CreateFrame(message, password, context, salt, nonce, cipher, codec).Ok?
    requires |bits| == context.width * context.height && forall p :: 0 <= p < |bits| ==> bits[p] < 2
    ensures
      var sent := EncodeMessage(message, password, context, salt, nonce, cipher, codec, blocks);
      var count := CalculateCapacity(context).value.blockCount;
      && sent.Ok? && CreatePayloadMap(sent.value, context).Ok?
      && count >= 0 && |sent.value| == BLOCK * count
      && RecoverPayload(Hard(bits), context).Ok?
      && ((forall b :: 0 <= b < count ==> CountTrue(Turned(bits, sent.value, b, count)) <= RADIUS) ==>
            DecodeMessage(RecoverPayload(Hard(bits), context).value, password, context, cipher, codec, blocks) == Ok(message))
  {
    CapacityFits(context);
    assert CheckChannel(Hard(bits), context).Ok?;
    DecodeSurvivesVoting(message, password, context, salt, nonce, cipher, codec, blocks, Hard(bits));
    var sent := EncodeMessage(message, password, context, salt, nonce, cipher, codec, blocks).value;
    var count := CalculateCapacity(context).value.blockCount;
    forall b | 0 <= b < count
      ensures Turned(bits, sent, b, count) == Misread(Hard(bits), sent, b, count)
    {
      TurnedIsMisread(bits, sent, b, count);
    }
  }
}
