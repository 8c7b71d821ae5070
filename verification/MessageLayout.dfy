/** The message protocol as bytes and numbers: which requests are accepted, why others are refused, and what a frame
    consists of. */
module MessageLayout {
  import opened Arithmetic
  import opened ExclusiveOr
  import opened ReedSolomon
  import opened CodeDistance
  import opened PayloadCapacity
  import opened MessageCorrection
  import opened MessageFrame
  import opened PayloadMap
  import opened TextOrder
  import opened Wrappers

  // Accepted contexts.

  /** The sizes and identities that are supported. */
  predicate Supported(context: Context) {
    var identity := context.identity;
    && 512 <= context.width <= 4096 && 512 <= context.height <= 4096
    && context.width * context.height <= 8_850_000
    && 1 <= |identity| <= 128 && identity[0] in LOWER + DIGITS
    && forall i :: 0 <= i < |identity| ==> identity[i] in LOWER + DIGITS + "_.-"
  }

  /** The contexts that are accepted are the supported ones. */
  lemma ValidIsSupported(context: Context)
    ensures ValidContext(context) <==> Supported(context)
  {
    forall c
      ensures c in LOWER + DIGITS <==> 'a' <= c <= 'z' || '0' <= c <= '9'
      ensures c in LOWER + DIGITS + "_.-" <==> IdentityCharacter(c)
    {
      LettersAndDigits(c);
      assert c in "_.-" <==> c == '_' || c == '.' || c == '-';
    }
  }

  // Accepted requests.

  /** A message of n bytes does not fit: one byte may be hidden for every 1024 pixels, and 1024 in all. */
  predicate TooLong(context: Context, n: int) {
    n > 1024 || 1024 * n > context.width * context.height
  }

  lemma CapacityIs(context: Context, n: int)
    requires ValidContext(context)
    ensures CalculateCapacity(context).Ok?
    ensures n > CalculateCapacity(context).value.maximumMessageBytes <==> TooLong(context, n)
  {
    CapacityIsGreatest(context);
    var maximum := CalculateCapacity(context).value.maximumMessageBytes;
    assert IsMaximum(context.width * context.height, maximum);
    if n <= maximum {
      assert 1024 * n <= 1024 * maximum;
    }
  }

  predicate PasswordFits(password: Text, codec: Codec) {
    1 <= |password| && codec.encode(password).Some? && |codec.encode(password).value| <= 1024
  }

  lemma PasswordBytesAre(password: Text, codec: Codec)
    requires SoundCodec(codec)
    ensures PasswordBytes(password, codec) ==
      if PasswordFits(password, codec) then Ok(codec.encode(password).value) else Err(InvalidPassword)
  {
  }

  /** A message is framed exactly when the context is supported, the message is text that fits the image, and the
      password is text of at most 1024 bytes; the reason of a refusal is the first of these that fails, a text of too
      many characters being too large even if it cannot be encoded. */
  lemma CreateAcceptsWithinCapacity(message: Text, password: Text, context: Context, salt: Word, nonce: Word, cipher: Cipher, codec: Codec)
    requires SoundCodec(codec) && |salt| == 16 && |nonce| == 24
    ensures
      var encoded := codec.encode(message);
      var long := TooLong(context, |message|) || (encoded.Some? && TooLong(context, |encoded.value|));
      match CreateFrame(message, password, context, salt, nonce, cipher, codec)
      case Ok(_) => ValidContext(context) && encoded.Some? && !TooLong(context, |encoded.value|) && PasswordFits(password, codec)
      case Err(InvalidProtocolInput) => !ValidContext(context)
      case Err(MessageTooLarge) => ValidContext(context) && long
      case Err(InvalidMessage) => ValidContext(context) && !long && encoded == None
      case Err(InvalidPassword) => ValidContext(context) && !long && encoded.Some? && !PasswordFits(password, codec)
      case Err(RecoveryFailed) => false
  {
    PasswordBytesAre(password, codec);
    if ValidContext(context) {
      CapacityIs(context, |message|);
      if codec.encode(message).Some? {
        CapacityIs(context, |codec.encode(message).value|);
      }
    }
  }

  /** A frame is refused because of the context, then because of the password, and then without saying why. */
  lemma RecoverRefuses(frame: Word, password: Text, context: Context, cipher: Cipher, codec: Codec)
    requires SoundCodec(codec)
    ensures
      match RecoverFrame(frame, password, context, cipher, codec)
      case Ok(_) => ValidContext(context) && PasswordFits(password, codec)
      case Err(InvalidProtocolInput) => !ValidContext(context)
      case Err(InvalidPassword) => ValidContext(context) && !PasswordFits(password, codec)
      case Err(RecoveryFailed) => ValidContext(context) && PasswordFits(password, codec)
      case Err(_) => false
  {
    PasswordBytesAre(password, codec);
    if ValidContext(context) {
      SizesOf(context);
    }
  }

  // Layout.

  /** A number in two or four bytes, the most significant first. */
  predicate Written(n: nat, bytes: Word) {
    if |bytes| == 0 then n == 0 else bytes[|bytes| - 1] == n % 256 && Written(n / 256, bytes[..|bytes| - 1])
  }

  lemma WrittenInTwo(n: nat)
    requires n < 65536
    ensures Written(n, Pack16(n)) && Written(n, Pack32(n))
  {
    var two, four := Pack16(n), Pack32(n);
    assert n / 256 / 256 == 0 && two[..1][..0] == [];
    assert two[..1] == [n / 256] && four[..3] == [0, 0, n / 256] && four[..3][..2] == [0, 0] && [0, 0][..1] == [0] && [0][..0] == [];
    assert Written(0, [0]) && Written(0, [0, 0]);
    assert Written(n / 256, [0, 0, n / 256]);
    assert Written(n / 256, [n / 256]);
  }

  /** What is authenticated beside the body: the protocol's name, the header, the identity with its length, and the
      dimensions. */
  lemma AuthenticatedContextIs(header: Word, context: Context)
    requires ValidContext(context)
    ensures exists length: Word, width: Word, height: Word ::
      && |length| == 2 && Written(|context.identity|, length)
      && |width| == 4 && Written(context.width, width) && |height| == 4 && Written(context.height, height)
      && AuthenticatedContext(header, context) ==
        Ascii("StegoLab/message_protocol/v1") + [0] + header + length + Ascii(context.identity) + width + height
  {
    IdentityIsAscii(context.identity);
    DomainIs();
    WrittenInTwo(|context.identity|);
    WrittenInTwo(context.width);
    WrittenInTwo(context.height);
    var length, width, height := Pack16(|context.identity|), Pack32(context.width), Pack32(context.height);
    assert AuthenticatedContext(header, context) ==
      Ascii("StegoLab/message_protocol/v1") + [0] + header + length + Ascii(context.identity) + width + height;
  }

  lemma DomainIs()
    ensures DOMAIN == Ascii("StegoLab/message_protocol/v1") + [0]
    ensures PREFIX == Ascii("SGLB") + [1]
  {
  }

  lemma IdentityIsAscii(identity: string)
    requires ValidIdentity(identity)
    ensures forall i :: 0 <= i < |identity| ==> identity[i] < 128 as char
    ensures IdentityBytes(identity) == Ascii(identity)
  {
    forall i | 0 <= i < |identity|
      ensures identity[i] < 128 as char
    {
      assert IdentityCharacter(identity[i]);
    }
    forall i | 0 <= i < |identity|
      ensures IdentityBytes(identity)[i] == Ascii(identity)[i]
    {
      assert IdentityBytes(identity)[i] as char == Ascii(identity)[i] as char;
    }
  }

  /** The plaintext of a frame: the length of the message, the message, and zeros up to the fixed size. */
  predicate IsPlain(plain: Word, encoded: Word) {
    && |plain| >= 2 + |encoded| && Written(|encoded|, plain[..2]) && plain[2..2 + |encoded|] == encoded
    && forall i :: 2 + |encoded| <= i < |plain| ==> plain[i] == 0
  }

  lemma BodyIsPlain(encoded: Word, size: nat)
    requires |encoded| < 65536 && 2 + |encoded| <= size
    ensures IsPlain(Body(encoded, size), encoded)
  {
    WrittenInTwo(|encoded|);
    var body := Body(encoded, size);
    assert body[..2] == Pack16(|encoded|) && body[2..2 + |encoded|] == encoded;
  }

  ghost predicate IsFrameSize(context: Context, size: nat) {
    exists maximum, blocks :: IsMaximum(context.width * context.height, maximum) && IsFewest(maximum, blocks) && size == 223 * blocks
  }

  /** A frame is the protocol's name and version, the salt, the nonce, and the plaintext sealed under the key of the
      password and the salt, in as few blocks of 223 bytes as hold the greatest message. */
  lemma FrameIs(message: Text, password: Text, context: Context, salt: Word, nonce: Word, cipher: Cipher, codec: Codec)
    requires SoundCipher(cipher) && SoundCodec(codec) && |salt| == 16 && |nonce| == 24
    requires CreateFrame(message, password, context, salt, nonce, cipher, codec).Ok?
    ensures ValidContext(context) && codec.encode(message).Some? && codec.encode(password).Some?
    ensures
      var frame := CreateFrame(message, password, context, salt, nonce, cipher, codec).value;
      var key := cipher.derive(codec.encode(password).value, salt);
      var header := Ascii("SGLB") + [1] + salt + nonce;
      exists plain: Word :: IsPlain(plain, codec.encode(message).value)
        && frame == header + cipher.seal(key, plain, AuthenticatedContext(header, context), nonce)
    ensures IsFrameSize(context, |CreateFrame(message, password, context, salt, nonce, cipher, codec).value|)
  {
    CapacityFits(context);
    DomainIs();
    PasswordBytesAre(password, codec);
    var capacity := CalculateCapacity(context).value;
    var encoded := codec.encode(message).value;
    var plain := Body(encoded, capacity.frameBytes - HEADER - TAG);
    BodyIsPlain(encoded, capacity.frameBytes - HEADER - TAG);
    assert IsPlain(plain, encoded);
    assert IsMaximum(context.width * context.height, capacity.maximumMessageBytes) && IsFewest(capacity.maximumMessageBytes, capacity.blockCount);
  }

  // Protected words and maps.

  lemma MaximumIsOne(pixels: int, m: int, n: int)
    requires IsMaximum(pixels, m) && IsMaximum(pixels, n)
    ensures m == n
  {
  }

  lemma FewestIsOne(n: int, a: int, b: int)
    requires IsFewest(n, a) && IsFewest(n, b)
    ensures a == b
  {
  }

  /** The sizes of the capacity record that the layout needs. */
  lemma SizesOf(context: Context)
    requires ValidContext(context)
    ensures CalculateCapacity(context).Ok?
    ensures var c := CalculateCapacity(context).value;
      c.blockCount > 0 && c.frameBytes == 223 * c.blockCount && c.protectedBits == 8 * (255 * c.blockCount)
      && c.payloadMapBits == context.width * context.height
  {
    CapacityFits(context);
    CapacityIsGreatest(context);
  }

  lemma FrameSizeIs(context: Context, size: nat)
    requires ValidContext(context)
    ensures CalculateCapacity(context).Ok?
    ensures IsFrameSize(context, size) <==> size == 223 * CalculateCapacity(context).value.blockCount
  {
    CapacityIsGreatest(context);
    var c := CalculateCapacity(context).value;
    var pixels := context.width * context.height;
    if IsFrameSize(context, size) {
      var maximum, blocks :| IsMaximum(pixels, maximum) && IsFewest(maximum, blocks) && size == 223 * blocks;
      MaximumIsOne(pixels, maximum, c.maximumMessageBytes);
      FewestIsOne(maximum, blocks, c.blockCount);
    }
    assert IsMaximum(pixels, c.maximumMessageBytes) && IsFewest(c.maximumMessageBytes, c.blockCount);
  }

  /** Only frames of the one right size are protected; each block of 223 bytes becomes one of 255. */
  lemma ProtectsExactly(frame: Word, context: Context, encode: Word -> Word)
    requires Encodes(encode)
    ensures
      match ProtectFrame(frame, context, encode)
      case Ok(word) => ValidContext(context) && IsFrameSize(context, |frame|) && 223 * |word| == 255 * |frame|
      case Err(reason) => reason == InvalidProtocolInput && !(ValidContext(context) && IsFrameSize(context, |frame|))
  {
    if ValidContext(context) {
      SizesOf(context);
      FrameSizeIs(context, |frame|);
    }
  }

  /** Every block can be decoded. */
  predicate AllDecode(word: Word, count: nat, decode: Word -> Option<Word>)
    requires |word| == 255 * count
  {
    forall b :: 0 <= b < count ==> decode(Stride(word, b, count)).Some?
  }

  lemma {:induction false} RestoresEvery(word: Word, count: nat, index: nat, decode: Word -> Option<Word>)
    requires index <= count && |word| == BLOCK * count
    ensures
      match RestoreBlocks(word, count, index, decode)
      case Ok(_) => forall b :: index <= b < count ==> decode(Stride(word, b, count)).Some?
      case Err(reason) => reason == RecoveryFailed && exists b :: index <= b < count && decode(Stride(word, b, count)) == None
    decreases count - index
  {
    if index < count {
      RestoresEvery(word, count, index + 1, decode);
    }
  }

  ghost predicate Restorable(word: Word, context: Context, decode: Word -> Option<Word>) {
    exists count: nat :: |word| == 255 * count && IsFrameSize(context, 223 * count) && AllDecode(word, count, decode)
  }

  lemma RestorableIs(word: Word, context: Context, count: nat, decode: Word -> Option<Word>)
    requires ValidContext(context) && CalculateCapacity(context).Ok? && count == CalculateCapacity(context).value.blockCount
    ensures Restorable(word, context, decode) <==> |word| == 255 * count && AllDecode(word, count, decode)
  {
    FrameSizeIs(context, 223 * count);
    if Restorable(word, context, decode) {
      var other: nat :| |word| == 255 * other && IsFrameSize(context, 223 * other) && AllDecode(word, other, decode);
      FrameSizeIs(context, 223 * other);
    }
  }

  /** A word is restored exactly when it has the size of a protected frame and each of its blocks can be decoded. */
  lemma RestoresExactly(word: Word, context: Context, decode: Word -> Option<Word>)
    ensures
      match RestoreFrame(word, context, decode)
      case Ok(_) => ValidContext(context) && Restorable(word, context, decode)
      case Err(InvalidProtocolInput) => !ValidContext(context)
      case Err(RecoveryFailed) => ValidContext(context) && !Restorable(word, context, decode)
      case Err(_) => false
  {
    if ValidContext(context) {
      SizesOf(context);
      var count := CalculateCapacity(context).value.blockCount;
      RestorableIs(word, context, count, decode);
      if |word| == BLOCK * count {
        RestoresEvery(word, count, 0, decode);
      }
    }
  }

  lemma HalfThenQuotient(b: nat, m: nat)
    requires m > 0
    ensures b / 2 / m == b / (2 * m)
  {
    var q, r := b / 2 / m, b / 2 % m;
    assert b / 2 == q * m + r;
    assert b == q * (2 * m) + (2 * r + b % 2);
    UniqueQuotient(b / (2 * m), q, b % (2 * m), 2 * r + b % 2, 2 * m);
  }

  lemma {:induction false} DigitIs(b: nat, width: nat, i: nat)
    requires i < width
    ensures TwoTo(width - 1 - i) > 0 && Digits(b, width)[i] == b / TwoTo(width - 1 - i) % 2
    decreases width
  {
    PowerPositive(width - 1 - i);
    if i < width - 1 {
      DigitIs(b / 2, width - 1, i);
      HalfThenQuotient(b, TwoTo(width - 2 - i));
    }
  }

  lemma {:induction false} PowerPositive(n: nat)
    ensures TwoTo(n) > 0
  {
    if n > 0 {
      PowerPositive(n - 1);
    }
  }

  /** The k-th bit of a word, the most significant of each byte first. */
  ghost predicate IsBit(word: Word, k: nat, bit: nat)
    requires k / 8 < |word|
  {
    PowerPositive(7 - k % 8);
    bit == word[k / 8] / TwoTo(7 - k % 8) % 2
  }

  lemma UnpackedBit(word: Word, k: nat)
    requires k < 8 * |word|
    ensures k / 8 < |word| && IsBit(word, k, Unpack(word)[k])
  {
    DigitIs(word[k / 8], WIDTH, k % 8);
  }

  /** Words of the one right size, which alone are spread. */
  ghost predicate IsWordSize(context: Context, size: nat) {
    exists count: nat :: size == 255 * count && IsFrameSize(context, 223 * count)
  }

  lemma WordSizeIs(context: Context, size: nat)
    requires ValidContext(context)
    ensures CalculateCapacity(context).Ok?
    ensures IsWordSize(context, size) <==> size == 255 * CalculateCapacity(context).value.blockCount
  {
    SizesOf(context);
    var count := CalculateCapacity(context).value.blockCount;
    FrameSizeIs(context, 223 * count);
    if IsWordSize(context, size) {
      var other: nat :| size == 255 * other && IsFrameSize(context, 223 * other);
      FrameSizeIs(context, 223 * other);
    }
  }

  /** Each pixel repeats the bits of the word in turn. */
  ghost predicate Repeats(word: Word, bits: seq<nat>) {
    word != [] && forall p :: 0 <= p < |bits| ==> var k := p % (8 * |word|); k / 8 < |word| && IsBit(word, k, bits[p])
  }

  lemma MapIsRepeats(word: Word, context: Context)
    requires CreatePayloadMap(word, context).Ok?
    ensures |CreatePayloadMap(word, context).value| == context.width * context.height && Repeats(word, CreatePayloadMap(word, context).value)
  {
    MapRepeats(word, context);
    var bits := CreatePayloadMap(word, context).value;
    forall p | 0 <= p < |bits|
      ensures var k := p % (8 * |word|); k / 8 < |word| && IsBit(word, k, bits[p])
    {
      UnpackedBit(word, p % (8 * |word|));
    }
  }

  /** Only protected words of the one right size are spread, over every pixel. */
  lemma SpreadsExactly(word: Word, context: Context)
    ensures
      match CreatePayloadMap(word, context)
      case Ok(bits) => ValidContext(context) && IsWordSize(context, |word|) && |bits| == context.width * context.height && Repeats(word, bits)
      case Err(reason) => reason == InvalidProtocolInput && !(ValidContext(context) && IsWordSize(context, |word|))
  {
    if ValidContext(context) {
      SizesOf(context);
      WordSizeIs(context, |word|);
      if CreatePayloadMap(word, context).Ok? {
        MapIsRepeats(word, context);
      }
    }
  }

  /** A received map is read exactly when it has one value a pixel, and only zeros and ones if it is hard. */
  lemma ReadsExactly(channel: Channel, context: Context)
    ensures
      match RecoverPayload(channel, context)
      case Ok(_) =>
        && ValidContext(context) && |Flat(channel)| == context.width * context.height
        && (channel.Hard? ==> forall p :: 0 <= p < |channel.bits| ==> channel.bits[p] == 0 || channel.bits[p] == 1)
      case Err(reason) =>
        && reason == InvalidProtocolInput
        && (!ValidContext(context) || |Flat(channel)| != context.width * context.height
            || (channel.Hard? && exists p :: 0 <= p < |channel.bits| && channel.bits[p] > 1))
  {
    if ValidContext(context) {
      SizesOf(context);
    }
  }
}
