/** PNG chunk layout (section 5.3 of the PNG Specification, Second Edition): length, name, content, checksum. */
module PngChunks {
  import opened ExclusiveOr
  import opened Wrappers

  type Word32 = x: int | 0 <= x < 0x1_0000_0000

  datatype Chunk = Chunk(name: seq<Byte>, content: seq<Byte>)

  /** Four bytes, the most significant first. */
  function Word(n: Word32): (b: seq<Byte>)
    ensures |b| == 4
  {
    [n / 256 / 256 / 256, n / 256 / 256 % 256, n / 256 % 256, n % 256]
  }

  function Number(b: seq<Byte>): Word32
    requires |b| == 4
  {
    ((b[0] as int * 256 + b[1]) * 256 + b[2]) * 256 + b[3]
  }

  lemma NumberOfWord(n: Word32)
    ensures Number(Word(n)) == n
  {
    var b := Word(n);
    assert b[0] as int * 256 + b[1] == n / 256 / 256;
    assert (n / 256 / 256) * 256 + b[2] == n / 256;
  }

  lemma WordOfNumber(b: seq<Byte>)
    requires |b| == 4
    ensures Word(Number(b)) == b
  {
    var n := Number(b);
    assert n / 256 == (b[0] as int * 256 + b[1]) * 256 + b[2];
    assert n / 256 / 256 == b[0] as int * 256 + b[1];
  }

  /** A chunk that can be written at all. */
  predicate Framed(c: Chunk) {
    |c.name| == 4 && |c.content| < 0x1_0000_0000
  }

  function Sealed(crc: seq<Byte> -> Word32, c: Chunk): (b: seq<Byte>)
    requires Framed(c)
    ensures |b| == 12 + |c.content|
  {
    Word(|c.content|) + c.name + c.content + Word(crc(c.name + c.content))
  }

  function Serialized(crc: seq<Byte> -> Word32, chunks: seq<Chunk>): seq<Byte>
    requires forall c :: c in chunks ==> Framed(c)
  {
    if chunks == [] then [] else Sealed(crc, chunks[0]) + Serialized(crc, chunks[1..])
  }

  /** The chunk at the front of some bytes, if it is complete and its checksum agrees. */
  function FirstChunk(crc: seq<Byte> -> Word32, b: seq<Byte>): Option<Chunk> {
    if |b| < 12 then None
    else
      var length := Number(b[..4]);
      if |b| < length + 12 then None
      else
        var name, content := b[4..8], b[8..8 + length];
        if crc(name + content) != Number(b[8 + length..12 + length]) then None else Some(Chunk(name, content))
  }

  /** The bytes read as chunks to their end. */
  function Chunks(crc: seq<Byte> -> Word32, b: seq<Byte>): Option<seq<Chunk>>
    decreases |b|
  {
    if b == [] then Some([])
    else
      var first := FirstChunk(crc, b);
      if first == None then None
      else
        var rest := Chunks(crc, b[12 + |first.value.content|..]);
        if rest == None then None else Some([first.value] + rest.value)
  }

  lemma FirstOfSealed(crc: seq<Byte> -> Word32, c: Chunk, rest: seq<Byte>)
    requires Framed(c)
    ensures FirstChunk(crc, Sealed(crc, c) + rest) == Some(c)
    ensures (Sealed(crc, c) + rest)[12 + |c.content|..] == rest
  {
    var b := Sealed(crc, c) + rest;
    var n := |c.content|;
    NumberOfWord(n);
    NumberOfWord(crc(c.name + c.content));
    assert b[..4] == Word(n);
    assert b[4..8] == c.name;
    assert b[8..8 + n] == c.content;
    assert b[8 + n..12 + n] == Word(crc(c.name + c.content));
  }

  lemma FirstIsSealed(crc: seq<Byte> -> Word32, b: seq<Byte>)
    requires FirstChunk(crc, b).Some?
    ensures
      var c := FirstChunk(crc, b).value;
      Framed(c) && 12 + |c.content| <= |b| && b == Sealed(crc, c) + b[12 + |c.content|..]
  {
    var c := FirstChunk(crc, b).value;
    var n := |c.content|;
    WordOfNumber(b[..4]);
    WordOfNumber(b[8 + n..12 + n]);
    assert b == b[..4] + b[4..8] + b[8..8 + n] + b[8 + n..12 + n] + b[12 + n..];
  }

  lemma {:induction false} WrittenIsRead(crc: seq<Byte> -> Word32, chunks: seq<Chunk>)
    requires forall c :: c in chunks ==> Framed(c)
    ensures Chunks(crc, Serialized(crc, chunks)) == Some(chunks)
  {
    if chunks != [] {
      assert chunks[0] in chunks;
      FirstOfSealed(crc, chunks[0], Serialized(crc, chunks[1..]));
      WrittenIsRead(crc, chunks[1..]);
      assert [chunks[0]] + chunks[1..] == chunks;
    }
  }

  lemma {:induction false} ReadIsWritten(crc: seq<Byte> -> Word32, b: seq<Byte>)
    requires Chunks(crc, b).Some?
    ensures forall c :: c in Chunks(crc, b).value ==> Framed(c)
    ensures Serialized(crc, Chunks(crc, b).value) == b
    decreases |b|
  {
    if b != [] {
      FirstIsSealed(crc, b);
      var first := FirstChunk(crc, b).value;
      var rest := b[12 + |first.content|..];
      ReadIsWritten(crc, rest);
      assert ([first] + Chunks(crc, rest).value)[1..] == Chunks(crc, rest).value;
    }
  }

  /** Reading and writing undo each other: bytes read as exactly the chunks they are the writing of. */
  lemma ReadsExactlyWritten(crc: seq<Byte> -> Word32, b: seq<Byte>, chunks: seq<Chunk>)
    ensures Chunks(crc, b) == Some(chunks) <==> (forall c :: c in chunks ==> Framed(c)) && Serialized(crc, chunks) == b
  {
    if forall c :: c in chunks ==> Framed(c) {
      WrittenIsRead(crc, chunks);
    }
    if Chunks(crc, b).Some? {
      ReadIsWritten(crc, b);
    }
  }
}
