/** Sizes of the protected message layout for a trusted context. */
module PayloadCapacity {
  import opened Arithmetic
  import opened Wrappers

  datatype Failure =
    | InvalidProtocolInput
    | RecoveryFailed
    | InvalidPassword
    | InvalidMessage
    | MessageTooLarge

  datatype Context = Context(width: int, height: int, identity: string)

  predicate IdentityCharacter(c: char) {
    'a' <= c <= 'z' || '0' <= c <= '9' || c == '_' || c == '.' || c == '-'
  }

  predicate ValidIdentity(identity: string) {
    1 <= |identity| <= 128
    && ('a' <= identity[0] <= 'z' || '0' <= identity[0] <= '9')
    && forall i :: 0 <= i < |identity| ==> IdentityCharacter(identity[i])
  }

  predicate ValidContext(context: Context) {
    512 <= context.width <= 4096
    && 512 <= context.height <= 4096
    && context.width * context.height <= 8_850_000
    && ValidIdentity(context.identity)
  }

  datatype Capacity = Capacity(
    maximumMessageBytes: int,
    paddingAtCapacity: int,
    blockCount: int,
    frameBytes: int,
    correctionBytes: int,
    protectedBits: int,
    payloadMapBits: int,
    repeatedBits: int,
    minimumRepetitions: int,
    additionalRepetitions: int)

  function CalculateCapacity(context: Context): Result<Capacity, Failure> {
    if !ValidContext(context) then Err(InvalidProtocolInput)
    else
      var pixels := context.width * context.height;
      var maximum := if pixels / 1024 < 1024 then pixels / 1024 else 1024;
      var blocks := (maximum + 63 + 222) / 223;
      var protectedBits := blocks * 255 * 8;
      if protectedBits > pixels || protectedBits <= 0 then Err(InvalidProtocolInput)
      else Ok(Capacity(
        maximum, blocks * 223 - 63 - maximum, blocks, blocks * 223, blocks * 32, protectedBits,
        pixels, pixels - protectedBits, pixels / protectedBits, pixels % protectedBits))
  }

  /** The bounds of the capacity record. */
  predicate WithinRecord(c: Capacity) {
    256 <= c.maximumMessageBytes <= 1024
    && 0 <= c.paddingAtCapacity < 223
    && 2 <= c.blockCount <= 5
    && 446 <= c.frameBytes <= 1115
    && 64 <= c.correctionBytes <= 160
    && 4080 <= c.protectedBits <= 10200
    && 262144 <= c.payloadMapBits <= 8_850_000
    && c.repeatedBits >= 0 && c.minimumRepetitions >= 1 && c.additionalRepetitions >= 0
  }

  /** For every supported context the guard never fires, the record is within its bounds and every byte
      and bit is accounted for. */
  lemma CapacityFits(context: Context)
    ensures CalculateCapacity(context).Ok? <==> ValidContext(context)
    ensures ValidContext(context) ==>
      var c := CalculateCapacity(context).value;
      && WithinRecord(c)
      && c.frameBytes == 45 + 2 + c.maximumMessageBytes + c.paddingAtCapacity + 16
      && c.frameBytes == 223 * c.blockCount
      && c.protectedBits == 8 * (c.frameBytes + c.correctionBytes)
      && c.payloadMapBits == c.protectedBits + c.repeatedBits
      && c.payloadMapBits == c.protectedBits * c.minimumRepetitions + c.additionalRepetitions
      && c.additionalRepetitions < c.protectedBits
  {
    if ValidContext(context) {
      var pixels := context.width * context.height;
      PixelBounds(context.width, context.height);
      var maximum := if pixels / 1024 < 1024 then pixels / 1024 else 1024;
      assert 256 <= maximum <= 1024;
      var blocks := (maximum + 63 + 222) / 223;
      assert 2 <= blocks <= 5;
      QuotientBounds(pixels, blocks * 255 * 8);
    }
  }

  /** The greatest message there is room for: at most 1024 bytes and one byte for every 1024 pixels. */
  ghost predicate IsMaximum(pixels: int, n: int) {
    && n <= 1024 && 1024 * n <= pixels
    && forall m: int :: m <= 1024 && 1024 * m <= pixels ==> m <= n
  }

  /** The fewest blocks of 223 bytes that hold a message of n bytes and the 63 bytes around it. */
  ghost predicate IsFewest(n: int, blocks: int) {
    && 223 * blocks >= 63 + n
    && forall b: int :: 223 * b >= 63 + n ==> blocks <= b
  }

  /** The message may be as long as the pixels allow, the blocks are as few as hold it, and the map covers every pixel. */
  lemma CapacityIsGreatest(context: Context)
    requires ValidContext(context)
    ensures CalculateCapacity(context).Ok?
    ensures var c := CalculateCapacity(context).value;
      && IsMaximum(context.width * context.height, c.maximumMessageBytes)
      && IsFewest(c.maximumMessageBytes, c.blockCount)
      && c.payloadMapBits == context.width * context.height && c.correctionBytes == 32 * c.blockCount
  {
    CapacityFits(context);
    MaximumIs(context.width * context.height);
    FewestIs(CalculateCapacity(context).value.maximumMessageBytes);
  }

  lemma MaximumIs(pixels: nat)
    ensures IsMaximum(pixels, if pixels / 1024 < 1024 then pixels / 1024 else 1024)
  {
  }

  lemma FewestIs(n: nat)
    ensures IsFewest(n, (n + 63 + 222) / 223)
  {
  }

  lemma PixelBounds(width: int, height: int)
    requires width >= 512 && height >= 512
    ensures width * height >= 262144
  {
    assert (width - 512) * (height - 512) >= 0;
  }
}
