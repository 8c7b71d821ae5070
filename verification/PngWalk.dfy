/** The loop over a PNG file's chunks. */
module PngWalk {
  import opened ExclusiveOr
  import opened PngChunks
  import opened PngInterlace
  import opened PngHeader
  import opened Wrappers

  /** What the loop knows: the chunks read, and that its flags say what they should of them. */
  ghost predicate Walking(judges: Judges, policy: Policy, bytes: seq<Byte>, read: seq<Chunk>, rest: seq<Byte>,
                          first: bool, seen: set<seq<Byte>>, finished: bool)
  {
    && ReadSoFar(judges.crc, bytes, read, rest)
    && InOrder(judges, policy, read) && !Has(read, IEND)
    && (first <==> read == []) && seen == Names(read) && (finished <==> Interrupted(read))
  }

  lemma OrderedNext(judges: Judges, policy: Policy, read: seq<Chunk>, c: Chunk)
    requires InOrder(judges, policy, read) && Follows(judges, policy, read, c)
    ensures InOrder(judges, policy, read + [c])
  {
    var more := read + [c];
    forall i | 0 <= i < |more|
      ensures Follows(judges, policy, more[..i], more[i])
    {
      if i < |read| {
        assert more[..i] == read[..i];
      } else {
        assert more[..i] == read;
      }
    }
  }

  lemma PixelDataNext(read: seq<Chunk>, c: Chunk)
    ensures PixelData(read + [c]) == PixelData(read) + (if c.name == IDAT then c.content else [])
  {
    assert (read + [c])[..|read|] == read;
  }

  lemma NamesDiffer()
    ensures IHDR != IDAT && IHDR != IEND && IDAT != IEND
  {
    assert IHDR[1] != IDAT[1] && IHDR[1] != IEND[1] && IDAT[1] != IEND[1];
  }

  /** The first chunk in order is a header chunk of full length. */
  lemma HeadLength(judges: Judges, policy: Policy, read: seq<Chunk>)
    requires InOrder(judges, policy, read) && read != []
    ensures |read[0].content| == 13
  {
    assert Follows(judges, policy, read[..0], read[0]);
  }

  lemma NoEndNotClosed(chunks: seq<Chunk>)
    requires !Has(chunks, IEND)
    ensures !Closed(chunks)
  {
    if chunks != [] {
      assert !At(chunks, |chunks| - 1, IEND);
    }
  }

  /** Bytes that stop before an end chunk hold nothing acceptable. */
  lemma StopsEarly(judges: Judges, policy: Policy, pixels: bool, bytes: seq<Byte>, read: seq<Chunk>, rest: seq<Byte>)
    requires ReadSoFar(judges.crc, bytes, read, rest) && !Has(read, IEND)
    requires rest == [] || FirstChunk(judges.crc, rest) == None
    ensures !Holds(judges, policy, pixels, bytes)
  {
    if rest == [] {
      assert read + [] == read;
      NoEndNotClosed(read);
    }
  }

  /** Bytes after the end chunk are not accepted. */
  lemma EndTooEarly(judges: Judges, policy: Policy, pixels: bool, bytes: seq<Byte>, read: seq<Chunk>, rest: seq<Byte>)
    requires ReadSoFar(judges.crc, bytes, read, rest) && read != [] && At(read, |read| - 1, IEND) && rest != []
    ensures !Holds(judges, policy, pixels, bytes)
  {
    if Chunks(judges.crc, bytes).Some? {
      var all := Chunks(judges.crc, bytes).value;
      assert |Chunks(judges.crc, rest).value| > 0;
      assert At(all, |read| - 1, IEND) && |read| - 1 != |all| - 1;
      assert !Closed(all);
    }
  }

  /** At the end of the bytes the list read is the list held. */
  lemma EndReached(judges: Judges, policy: Policy, pixels: bool, bytes: seq<Byte>, read: seq<Chunk>)
    requires ReadSoFar(judges.crc, bytes, read, []) && InOrder(judges, policy, read) && Ended(read)
    ensures Chunks(judges.crc, bytes) == Some(read) && |read[0].content| == 13
    ensures Holds(judges, policy, pixels, bytes) <==>
      Has(read, IDAT) && ColorDeclared(read) && (pixels ==> PixelsComplete(judges, read))
  {
    assert read + [] == read;
    OrderIsShape(judges, policy, read);
    HeadLength(judges, policy, read);
  }

  /** Read the chunk at the front of the rest, as the loop slices it. */
  method ReadChunk(crc: seq<Byte> -> Word32, rest: seq<Byte>) returns (read: Option<Chunk>)
    requires |rest| >= 12
    ensures read == FirstChunk(crc, rest)
  {
    var length: int := Number(rest[..4]);
    var end := length + 12;
    if end > |rest| {
      return None;
    }
    var name, content := rest[4..8], rest[8..end - 4];
    var checksum := Number(rest[end - 4..end]);
    if crc(name + content) != checksum {
      return None;
    }
    read := Some(Chunk(name, content));
  }

  /** The pixel stream, once there is one, has been fed the pixel chunks read. */
  ghost predicate Fed(stream: PixelStreamValidator?, read: seq<Chunk>, validatePixels: bool)
    reads stream
  {
    && (stream == null <==> read == [] || !validatePixels)
    && (stream != null ==>
          |read[0].content| == 13 && stream.received == PixelData(read) && stream.expectedBytes == HeaderBudget(read[0].content))
  }

  /** Start the pixel stream at the header and feed it each pixel chunk. */
  method FeedPixels(judges: Judges, policy: Policy, validatePixels: bool, c: Chunk, ghost read: seq<Chunk>, stream: PixelStreamValidator?)
    returns (next: PixelStreamValidator?)
    requires InOrder(judges, policy, read) && Follows(judges, policy, read, c) && Fed(stream, read, validatePixels)
    modifies stream
    ensures Fed(next, read + [c], validatePixels)
    ensures next == stream || fresh(next)
  {
    next := stream;
    PixelDataNext(read, c);
    if stream == null && validatePixels {
      NamesDiffer();
      var head := c.content;
      next := new PixelStreamValidator(Number(head[..4]), Number(head[4..8]), Channels(head[9]), head[12]);
      assert PixelData([]) == [];
    }
    if c.name == IDAT && next != null {
      next.Feed(c.content);
    }
  }

  /** Accepts exactly the files whose bytes after the signature are an acceptable chunk list, with the header's
      dimensions and color mode. */
  method ReadHeader(judges: Judges, policy: Policy, data: seq<Byte>, validatePixels: bool)
    returns (result: Result<Header, Failure>)
    requires |data| >= 8
    ensures result.Ok? <==> Holds(judges, policy, validatePixels, data[8..])
    ensures result.Ok? ==> result.value == HeaderOf(Chunks(judges.crc, data[8..]).value)
  {
    var offset, first, finished := 8, true, false;
    var seen: set<seq<Byte>> := {};
    var head: seq<Byte> := [];
    var stream: PixelStreamValidator? := null;
    var rest := data[8..]; // what is left from the offset on
    ghost var bytes := rest;
    ghost var read: seq<Chunk> := [];
    Starting(judges, policy, bytes);
    while offset + 12 <= |data|
      invariant 8 <= offset && offset + |rest| == |data|
      invariant Walking(judges, policy, bytes, read, rest, first, seen, finished)
      invariant read != [] ==> head == read[0].content
      invariant Fed(stream, read, validatePixels) && (stream == null || fresh(stream))
      decreases |data| - offset
    {
      var chunk := ReadChunk(judges.crc, rest);
      if chunk == None {
        StopsEarly(judges, policy, validatePixels, bytes, read, rest);
        return Err(Invalid);
      }
      var c := chunk.value;
      var failure := CheckChunk(judges, policy, c, first, seen, finished, read);
      if failure != None {
        RefusedChunk(judges, policy, validatePixels, bytes, read, rest);
        return Err(failure.value);
      }
      stream := FeedPixels(judges, policy, validatePixels, c, read, stream);
      if first {
        head := c.content;
      }
      var size := 12 + |c.content|;
      if c.name == IEND {
        ReadOneMore(judges.crc, bytes, read, rest);
        OrderedNext(judges, policy, read, c);
        EndNext(read, c);
        result := Conclude(judges, policy, validatePixels, bytes, read + [c], rest[size..], seen + {c.name}, head, stream);
        return;
      }
      WalkOn(judges, policy, bytes, read, rest, first, seen, finished, c);
      if c.name != IDAT && IDAT in seen {
        finished := true;
      }
      first := false;
      seen := seen + {c.name};
      offset := offset + size;
      rest := rest[size..];
      read := read + [c];
    }
    FewLeft(judges.crc, rest);
    StopsEarly(judges, policy, validatePixels, bytes, read, rest);
    result := Err(Invalid);
  }

  lemma FewLeft(crc: seq<Byte> -> Word32, rest: seq<Byte>)
    requires |rest| < 12
    ensures FirstChunk(crc, rest) == None
  {
  }

  lemma Starting(judges: Judges, policy: Policy, bytes: seq<Byte>)
    ensures Walking(judges, policy, bytes, [], bytes, true, {}, false)
  {
    if Chunks(judges.crc, bytes).Some? {
      assert [] + Chunks(judges.crc, bytes).value == Chunks(judges.crc, bytes).value;
    }
  }

  /** What accepting one chunk changes. */
  lemma WalkOn(judges: Judges, policy: Policy, bytes: seq<Byte>, read: seq<Chunk>, rest: seq<Byte>,
               first: bool, seen: set<seq<Byte>>, finished: bool, c: Chunk)
    requires Walking(judges, policy, bytes, read, rest, first, seen, finished)
    requires FirstChunk(judges.crc, rest) == Some(c) && Follows(judges, policy, read, c) && c.name != IEND
    ensures 12 + |c.content| <= |rest|
    ensures Walking(judges, policy, bytes, read + [c], rest[12 + |c.content|..], false, seen + {c.name},
                    finished || (c.name != IDAT && IDAT in seen))
  {
    ReadOneMore(judges.crc, bytes, read, rest);
    OrderedNext(judges, policy, read, c);
    InterruptedNext(read, c);
    NamesHave(read, IDAT);
  }

  lemma EndNext(read: seq<Chunk>, c: Chunk)
    requires c.name == IEND
    ensures Ended(read + [c]) && Names(read + [c]) == Names(read) + {c.name}
  {
    InterruptedNext(read, c);
    assert At(read + [c], |read|, IEND);
  }

  /** The checks at the end chunk and after it. */
  method Conclude(judges: Judges, policy: Policy, validatePixels: bool, ghost bytes: seq<Byte>, ghost read: seq<Chunk>,
                  rest: seq<Byte>, seen: set<seq<Byte>>, head: seq<Byte>, stream: PixelStreamValidator?)
    returns (result: Result<Header, Failure>)
    requires ReadSoFar(judges.crc, bytes, read, rest) && InOrder(judges, policy, read) && Ended(read)
    requires seen == Names(read) && head == read[0].content && Fed(stream, read, validatePixels)
    ensures result.Ok? <==> Holds(judges, policy, validatePixels, bytes)
    ensures result.Ok? ==> Chunks(judges.crc, bytes) == Some(read) && result.value == HeaderOf(read)
  {
    if rest != [] {
      EndTooEarly(judges, policy, validatePixels, bytes, read, rest);
      return Err(Invalid);
    }
    EndReached(judges, policy, validatePixels, bytes, read);
    NamesHave(read, IDAT);
    NamesHave(read, GAMA);
    NamesHave(read, CHRM);
    NamesHave(read, ICCP);
    NamesHave(read, SRGB);
    if IDAT !in seen {
      return Err(Invalid);
    }
    if stream != null {
      var complete := stream.Finish(judges.inflated);
      if !complete {
        return Err(Invalid);
      }
    }
    if (GAMA in seen || CHRM in seen) && ICCP !in seen && SRGB !in seen {
      return Err(Color);
    }
    result := Ok(Header(Number(head[..4]), Number(head[4..8]),
                              if head[9] == 0 then L else if head[9] == 6 then RGBA else RGB, seen));
  }

  /** A whole file is accepted exactly when it fits the size limit and is the signature followed by the writing
      of some acceptable chunk list; the header is then that list's. */
  method InspectPng(judges: Judges, policy: Policy, data: seq<Byte>, validatePixels: bool)
    returns (result: Result<Header, Failure>)
    ensures result.Ok? <==>
      |data| <= policy.maximumBytes && exists chunks :: IsFileOf(judges, policy, validatePixels, data, chunks)
    ensures forall chunks :: result.Ok? && IsFileOf(judges, policy, validatePixels, data, chunks) ==> result.value == HeaderOf(chunks)
  {
    if |data| > policy.maximumBytes {
      return Err(Limits);
    }
    if |data| < 8 || data[..8] != SIGNATURE {
      forall chunks
        ensures !IsFileOf(judges, policy, validatePixels, data, chunks)
      {
        NotFileOf(judges, policy, validatePixels, data, chunks);
      }
      return Err(Invalid);
    }
    result := ReadHeader(judges, policy, data, validatePixels);
    forall chunks
      ensures IsFileOf(judges, policy, validatePixels, data, chunks) <==>
        Chunks(judges.crc, data[8..]) == Some(chunks) && Acceptable(judges, policy, validatePixels, chunks)
    {
      FileOf(judges, policy, validatePixels, data, chunks);
    }
    if result.Ok? {
      assert IsFileOf(judges, policy, validatePixels, data, Chunks(judges.crc, data[8..]).value);
    }
  }

  /** The file that a chunk list is written as. */
  ghost predicate IsFileOf(judges: Judges, policy: Policy, pixels: bool, data: seq<Byte>, chunks: seq<Chunk>) {
    && (forall c :: c in chunks ==> Framed(c))
    && data == SIGNATURE + Serialized(judges.crc, chunks)
    && Acceptable(judges, policy, pixels, chunks)
  }

  lemma NotFileOf(judges: Judges, policy: Policy, pixels: bool, data: seq<Byte>, chunks: seq<Chunk>)
    requires |data| < 8 || data[..8] != SIGNATURE
    ensures !IsFileOf(judges, policy, pixels, data, chunks)
  {
    if forall c :: c in chunks ==> Framed(c) {
      var file := SIGNATURE + Serialized(judges.crc, chunks);
      assert |file| >= 8 && file[..8] == SIGNATURE;
    }
  }

  lemma FileOf(judges: Judges, policy: Policy, pixels: bool, data: seq<Byte>, chunks: seq<Chunk>)
    requires |data| >= 8 && data[..8] == SIGNATURE
    ensures IsFileOf(judges, policy, pixels, data, chunks) <==>
      Chunks(judges.crc, data[8..]) == Some(chunks) && Acceptable(judges, policy, pixels, chunks)
  {
    ReadsExactlyWritten(judges.crc, data[8..], chunks);
    assert data == data[..8] + data[8..];
    if forall c :: c in chunks ==> Framed(c) {
      var written := Serialized(judges.crc, chunks);
      assert (SIGNATURE + written)[8..] == written;
    }
  }
}
