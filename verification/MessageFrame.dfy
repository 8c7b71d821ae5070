/** Authenticated, padded message frames and the whole encode and decode path. The key derivation, the
    cipher, the UTF-8 codec and the block codec are parameters with the laws they are relied on for. */
module MessageFrame {
  import opened ExclusiveOr
  import opened ReedSolomon
  import opened CodeDistance
  import opened PayloadCapacity
  import opened MessageCorrection
  import opened Wrappers

  type Text = seq<nat>

  datatype Cipher = Cipher(
    derive: (Word, Word) -> Word,
    seal: (Word, Word, Word, Word) -> Word,
    open: (Word, Word, Word, Word) -> Option<Word>)

  /** An authenticated cipher opens what it sealed and adds sixteen bytes. Arguments: key, bytes, context, nonce. */
  ghost predicate SoundCipher(c: Cipher) {
    && (forall key, body, context, nonce :: c.open(key, c.seal(key, body, context, nonce), context, nonce) == Some(body))
    && (forall key, body, context, nonce :: |c.seal(key, body, context, nonce)| == |body| + 16)
    && (forall key, sealed, context, nonce ::
          c.open(key, sealed, context, nonce).Some? ==> |c.open(key, sealed, context, nonce).value| + 16 == |sealed|)
  }

  datatype Codec = Codec(encode: Text -> Option<Word>, decode: Word -> Option<Text>)

  /** Strict UTF-8: encoding and decoding are each other's inverses and a character takes a byte at least. */
  ghost predicate SoundCodec(u: Codec) {
    && (forall t, b :: u.encode(t) == Some(b) <==> u.decode(b) == Some(t))
    && (forall t :: u.encode(t).Some? ==> |t| <= |u.encode(t).value|)
  }

  // "SGLB" and the version.
  const PREFIX: Word := [83, 71, 76, 66, 1]
  const HEADER: nat := 45
  const TAG: nat := 16

  // "StegoLab/message_protocol/v1" and a zero byte.
  const DOMAIN: Word := [
    83, 116, 101, 103, 111, 76, 97, 98, 47, 109, 101, 115, 115, 97, 103, 101,
    95, 112, 114, 111, 116, 111, 99, 111, 108, 47, 118, 49, 0]

  function Unpack16(high: Byte, low: Byte): nat {
    256 * (high as int) + low as int
  }

  /** Big-endian two-byte integers. */
  function Pack16(n: nat): (w: Word)
    requires n < 65536
    ensures |w| == 2 && Unpack16(w[0], w[1]) == n
  {
    [n / 256, n % 256]
  }

  function Pack32(n: nat): (w: Word)
    requires n < 65536
    ensures |w| == 4 && Unpack16(w[2], w[3]) == n
  {
    [0, 0] + Pack16(n)
  }

  function IdentityBytes(identity: string): (w: Word)
    requires ValidIdentity(identity)
    ensures |w| == |identity| && forall i :: 0 <= i < |w| ==> w[i] as char == identity[i]
  {
    seq(|identity|, i requires 0 <= i < |identity| =>
      assert IdentityCharacter(identity[i]);
      identity[i] as int)
  }

  function AuthenticatedContext(header: Word, context: Context): Word
    requires ValidContext(context)
  {
    DOMAIN + header + Pack16(|context.identity|) + IdentityBytes(context.identity)
    + Pack32(context.width) + Pack32(context.height)
  }

  lemma SplitEqual(a: Word, b: Word, c: Word, d: Word)
    requires a + b == c + d && |a| == |c|
    ensures a == c && b == d
  {
    assert (a + b)[..|a|] == a && (c + d)[..|c|] == c;
    assert (a + b)[|a|..] == b && (c + d)[|c|..] == d;
  }

  lemma SameIdentity(a: string, b: string)
    requires ValidIdentity(a) && ValidIdentity(b) && IdentityBytes(a) == IdentityBytes(b)
    ensures a == b
  {
    forall i | 0 <= i < |a|
      ensures a[i] == b[i]
    {
      assert IdentityBytes(a)[i] as char == a[i] && IdentityBytes(b)[i] as char == b[i];
    }
  }

  lemma SameNumber(m: nat, n: nat)
    requires m < 65536 && n < 65536 && Pack32(m) == Pack32(n)
    ensures m == n
  {
  }

  /** The encoding without its domain, grouped from the right. */
  function Parts(header: Word, context: Context): Word
    requires ValidContext(context)
  {
    header + (Pack16(|context.identity|) + (IdentityBytes(context.identity) + (Pack32(context.width) + Pack32(context.height))))
  }

  lemma PartsOf(header: Word, context: Context)
    requires ValidContext(context)
    ensures AuthenticatedContext(header, context) == DOMAIN + Parts(header, context)
  {
  }

  /** The context is encoded unambiguously: equal encodings come from equal headers and contexts. */
  lemma ContextIsUnambiguous(h: Word, a: Context, k: Word, b: Context)
    requires |h| == |k| == HEADER && ValidContext(a) && ValidContext(b)
    requires AuthenticatedContext(h, a) == AuthenticatedContext(k, b)
    ensures h == k && a == b
  {
    var tailA, tailB := Pack32(a.width) + Pack32(a.height), Pack32(b.width) + Pack32(b.height);
    var restA, restB := IdentityBytes(a.identity) + tailA, IdentityBytes(b.identity) + tailB;
    PartsOf(h, a);
    PartsOf(k, b);
    SplitEqual(DOMAIN, Parts(h, a), DOMAIN, Parts(k, b));
    SplitEqual(h, Pack16(|a.identity|) + restA, k, Pack16(|b.identity|) + restB);
    SplitEqual(Pack16(|a.identity|), restA, Pack16(|b.identity|), restB);
    SplitEqual(IdentityBytes(a.identity), tailA, IdentityBytes(b.identity), tailB);
    SplitEqual(Pack32(a.width), Pack32(a.height), Pack32(b.width), Pack32(b.height));
    SameIdentity(a.identity, b.identity);
    SameNumber(a.width, b.width);
    SameNumber(a.height, b.height);
  }

  function PasswordBytes(password: Text, codec: Codec): Result<Word, Failure> {
    if !(1 <= |password| <= 1024) then Err(InvalidPassword)
    else
      match codec.encode(password)
      case None => Err(InvalidPassword)
      case Some(encoded) => if |encoded| > 1024 then Err(InvalidPassword) else Ok(encoded)
  }

  /** The plaintext of a message: its length, its bytes and zero padding to a fixed size. */
  function Body(encoded: Word, size: nat): (body: Word)
    requires |encoded| < 65536 && 2 + |encoded| <= size
    ensures |body| == size
  {
    Pack16(|encoded|) + encoded + Zeros(size - 2 - |encoded|)
  }

  function CreateFrame(message: Text, password: Text, context: Context, salt: Word, nonce: Word, cipher: Cipher, codec: Codec)
    : Result<Word, Failure>
    requires |salt| == 16 && |nonce| == 24
  {
    var capacity :- CalculateCapacity(context);
    CapacityFits(context);
    if |message| > capacity.maximumMessageBytes then Err(MessageTooLarge)
    else
      match codec.encode(message)
      case None => Err(InvalidMessage)
      case Some(encoded) =>
        if |encoded| > capacity.maximumMessageBytes then Err(MessageTooLarge)
        else
          var secret :- PasswordBytes(password, codec);
          var header := PREFIX + salt + nonce;
          var body := Body(encoded, capacity.frameBytes - HEADER - TAG);
          var key := cipher.derive(secret, salt);
          Ok(header + cipher.seal(key, body, AuthenticatedContext(header, context), nonce))
  }

  function RecoverFrame(frame: Word, password: Text, context: Context, cipher: Cipher, codec: Codec): Result<Text, Failure> {
    var capacity :- CalculateCapacity(context);
    CapacityFits(context);
    var secret :- PasswordBytes(password, codec);
    if |frame| != capacity.frameBytes || frame[..5] != PREFIX then Err(RecoveryFailed)
    else
      var header := frame[..HEADER];
      var salt, nonce := header[5..21], header[21..45];
      var key := cipher.derive(secret, salt);
      match cipher.open(key, frame[HEADER..], AuthenticatedContext(header, context), nonce)
      case None => Err(RecoveryFailed)
      case Some(body) => ReadBody(body, capacity.maximumMessageBytes, codec)
  }

  /** Read a decrypted body; slices past the end are empty, as in the source. */
  function ReadBody(body: Word, maximum: int, codec: Codec): Result<Text, Failure> {
    var length := if |body| >= 2 then Unpack16(body[0], body[1]) else if |body| == 1 then body[0] else 0;
    if length > maximum then Err(RecoveryFailed)
    else if exists i :: 2 + length <= i < |body| && body[i] != 0 then Err(RecoveryFailed)
    else
      var low := if |body| < 2 then |body| else 2;
      var high := if |body| < 2 + length then |body| else 2 + length;
      match codec.decode(body[low..high])
      case None => Err(RecoveryFailed)
      case Some(text) => Ok(text)
  }

  /** A body is read as a text exactly when it is the canonical padded body of that text. */
  lemma BodyIsCanonical(body: Word, maximum: nat, codec: Codec, text: Text)
    requires SoundCodec(codec) && maximum < 65536 && 2 + maximum <= |body|
    ensures ReadBody(body, maximum, codec) == Ok(text) <==>
      codec.encode(text).Some? && |codec.encode(text).value| <= maximum
      && body == Body(codec.encode(text).value, |body|)
  {
    var length := Unpack16(body[0], body[1]);
    if codec.encode(text).Some? && |codec.encode(text).value| <= maximum {
      var encoded := codec.encode(text).value;
      var canonical := Body(encoded, |body|);
      if body == canonical {
        assert length == |encoded|;
        assert body[2..2 + length] == encoded;
        assert forall i :: 2 + length <= i < |body| ==> body[i] == 0;
      } else if ReadBody(body, maximum, codec) == Ok(text) {
        assert codec.decode(body[2..2 + length]) == Some(text);
        assert body[2..2 + length] == encoded;
        CanonicalBytes(body, length, encoded);
      }
    }
  }

  lemma CanonicalBytes(body: Word, length: nat, encoded: Word)
    requires 2 + length <= |body| && length == Unpack16(body[0], body[1])
    requires encoded == body[2..2 + length]
    requires forall i :: 2 + length <= i < |body| ==> body[i] == 0
    ensures body == Body(encoded, |body|)
  {
    var canonical := Body(encoded, |body|);
    var packed := Pack16(length);
    assert Unpack16(packed[0], packed[1]) == Unpack16(body[0], body[1]);
    assert packed[0] == body[0] && packed[1] == body[1];
    forall i | 0 <= i < |body|
      ensures body[i] == canonical[i]
    {
    }
  }

  /** A frame that opens, under the key of its own salt, to the canonical body of a text. */
  ghost predicate CanonicalFrame(frame: Word, secret: Word, context: Context, cipher: Cipher, codec: Codec, text: Text)
    requires ValidContext(context)
  {
    CapacityFits(context);
    var capacity := CalculateCapacity(context).value;
    && |frame| == capacity.frameBytes
    && frame[..5] == PREFIX
    && codec.encode(text).Some?
    && |codec.encode(text).value| <= capacity.maximumMessageBytes
    && cipher.open(cipher.derive(secret, frame[5..21]), frame[HEADER..], AuthenticatedContext(frame[..HEADER], context), frame[21..45])
       == Some(Body(codec.encode(text).value, |frame| - HEADER - TAG))
  }

  /** A frame is accepted as a text exactly when it opens to that text's canonical body. */
  lemma RecoverFrameExactly(frame: Word, password: Text, context: Context, cipher: Cipher, codec: Codec, text: Text)
    requires SoundCipher(cipher) && SoundCodec(codec) && ValidContext(context)
    requires PasswordBytes(password, codec).Ok?
    ensures RecoverFrame(frame, password, context, cipher, codec) == Ok(text) <==>
      CanonicalFrame(frame, PasswordBytes(password, codec).value, context, cipher, codec, text)
  {
    CapacityFits(context);
    var capacity := CalculateCapacity(context).value;
    var secret := PasswordBytes(password, codec).value;
    if |frame| == capacity.frameBytes && frame[..5] == PREFIX {
      var header := frame[..HEADER];
      assert header[5..21] == frame[5..21] && header[21..45] == frame[21..45];
      var plain := cipher.open(cipher.derive(secret, frame[5..21]), frame[HEADER..], AuthenticatedContext(header, context), frame[21..45]);
      if plain.Some? {
        BodyIsCanonical(plain.value, capacity.maximumMessageBytes, codec, text);
      }
    }
  }

  /** Recovering undoes creating. */
  lemma RecoverUndoesCreate(message: Text, password: Text, context: Context, salt: Word, nonce: Word, cipher: Cipher, codec: Codec)
    requires SoundCipher(cipher) && SoundCodec(codec) && |salt| == 16 && |nonce| == 24
    requires CreateFrame(message, password, context, salt, nonce, cipher, codec).Ok?
    ensures
      var frame := CreateFrame(message, password, context, salt, nonce, cipher, codec).value;
      |frame| == CalculateCapacity(context).value.frameBytes
      && RecoverFrame(frame, password, context, cipher, codec) == Ok(message)
  {
    CapacityFits(context);
    var capacity := CalculateCapacity(context).value;
    var frame := CreateFrame(message, password, context, salt, nonce, cipher, codec).value;
    var header := PREFIX + salt + nonce;
    var body := Body(codec.encode(message).value, capacity.frameBytes - HEADER - TAG);
    var sealed := cipher.seal(cipher.derive(PasswordBytes(password, codec).value, salt), body,
      AuthenticatedContext(header, context), nonce);
    assert frame == header + sealed;
    assert frame[..HEADER] == header && frame[HEADER..] == sealed;
    assert frame[..5] == PREFIX && frame[5..21] == salt && frame[21..45] == nonce;
    RecoverFrameExactly(frame, password, context, cipher, codec, message);
  }

  // The message protocol.

  function EncodeMessage(message: Text, password: Text, context: Context, salt: Word, nonce: Word, cipher: Cipher, codec: Codec,
                         blocks: BlockCodec): Result<Word, Failure>
    requires |salt| == 16 && |nonce| == 24 && Encodes(blocks.encode)
  {
    var frame :- CreateFrame(message, password, context, salt, nonce, cipher, codec);
    ProtectFrame(frame, context, blocks.encode)
  }

  function DecodeMessage(word: Word, password: Text, context: Context, cipher: Cipher, codec: Codec, blocks: BlockCodec)
    : Result<Text, Failure>
  {
    var frame :- RestoreFrame(word, context, blocks.decode);
    RecoverFrame(frame, password, context, cipher, codec)
  }

  /** Decoding returns exactly the encoded message after any damage of up to sixteen bytes a block. */
  lemma DecodeUndoesEncode(message: Text, password: Text, context: Context, salt: Word, nonce: Word, cipher: Cipher, codec: Codec,
                           blocks: BlockCodec, received: Word)
    requires SoundCipher(cipher) && SoundCodec(codec) && SoundBlocks(blocks) && |salt| == 16 && |nonce| == 24
    requires CreateFrame(message, password, context, salt, nonce, cipher, codec).Ok?
    ensures
      var sent := EncodeMessage(message, password, context, salt, nonce, cipher, codec, blocks);
      && sent.Ok?
      && |sent.value| * 8 == CalculateCapacity(context).value.protectedBits
      && (Damaged(sent.value, received, CalculateCapacity(context).value.blockCount) ==>
            DecodeMessage(received, password, context, cipher, codec, blocks) == Ok(message))
  {
    CapacityFits(context);
    RecoverUndoesCreate(message, password, context, salt, nonce, cipher, codec);
    var frame := CreateFrame(message, password, context, salt, nonce, cipher, codec).value;
    assert ProtectFrame(frame, context, blocks.encode).Ok?;
    if Damaged(ProtectFrame(frame, context, blocks.encode).value, received, CalculateCapacity(context).value.blockCount) {
      RestoreUndoesProtect(frame, received, context, blocks);
    }
  }

  /** In particular after a burst of up to 16 times block_count consecutive bytes, anywhere. */
  lemma DecodeSurvivesBurst(message: Text, password: Text, context: Context, salt: Word, nonce: Word, cipher: Cipher, codec: Codec,
                            blocks: BlockCodec, received: Word, start: nat)
    requires SoundCipher(cipher) && SoundCodec(codec) && SoundBlocks(blocks) && |salt| == 16 && |nonce| == 24
    requires CreateFrame(message, password, context, salt, nonce, cipher, codec).Ok?
    requires EncodeMessage(message, password, context, salt, nonce, cipher, codec, blocks).Ok?
    requires Burst(EncodeMessage(message, password, context, salt, nonce, cipher, codec, blocks).value, received, start,
               CalculateCapacity(context).value.blockCount)
    ensures DecodeMessage(received, password, context, cipher, codec, blocks) == Ok(message)
  {
    CapacityFits(context);
    var sent := EncodeMessage(message, password, context, salt, nonce, cipher, codec, blocks).value;
    BurstIsSpread(sent, received, start, CalculateCapacity(context).value.blockCount);
    DecodeUndoesEncode(message, password, context, salt, nonce, cipher, codec, blocks, received);
  }
}
